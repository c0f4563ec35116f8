/** `URLSearchParams` of the WHATWG URL Standard (section 6.2): an ordered
    list of name/value pairs with `get` (first match) and `set` (replace the
    first match in place, drop the later ones, or append). */
module SearchParams {
  import opened Wrappers
  import opened FormUrlEncoded

  /** No name occurs twice. */
  predicate UniqueNames(ps: seq<Pair>) {
    forall i, j | 0 <= i < j < |ps| :: ps[i].name != ps[j].name
  }

  /** How many pairs carry `name`. */
  function Count(ps: seq<Pair>, name: string): (n: nat)
    ensures n <= |ps|
  {
    if ps == [] then 0 else (if ps[0].name == name then 1 else 0) + Count(ps[1..], name)
  }

  /** Position of the first pair carrying `name`; `|ps|` when there is none. */
  function FirstIndex(ps: seq<Pair>, name: string): (i: nat)
    ensures i <= |ps|
    ensures i < |ps| ==> ps[i].name == name
  {
    if ps == [] then 0 else if ps[0].name == name then 0 else 1 + FirstIndex(ps[1..], name)
  }

  /** `URLSearchParams.get`: the value of the first pair named `name`, if any. */
  function GetParam(ps: seq<Pair>, name: string): (v: Option<string>)
    ensures v.Some? <==> FirstIndex(ps, name) < |ps|
    ensures v.Some? ==> v.value == ps[FirstIndex(ps, name)].value
  {
    if ps == [] then None else if ps[0].name == name then Some(ps[0].value) else GetParam(ps[1..], name)
  }

  /** The list with every pair named `name` removed, order kept. */
  function Without(ps: seq<Pair>, name: string): (r: seq<Pair>)
    ensures Count(r, name) == 0
    ensures |r| == |ps| - Count(ps, name)
    ensures Count(ps, name) == 0 ==> r == ps
  {
    if ps == [] then []
    else if ps[0].name == name then Without(ps[1..], name)
    else [ps[0]] + Without(ps[1..], name)
  }

  /** `URLSearchParams.set`: the first pair named `name` takes the new value
      and every later pair of that name is dropped; without such a pair, a new
      pair is appended. */
  function SetParam(ps: seq<Pair>, name: string, value: string): (r: seq<Pair>)
    ensures |r| >= 1
  {
    if ps == [] then [Pair(name, value)]
    else if ps[0].name == name then [Pair(name, value)] + Without(ps[1..], name)
    else [ps[0]] + SetParam(ps[1..], name, value)
  }

  /** What `set` promises: one pair of that name, at the position of the old
      first one (the end if there was none), with the new value, and every
      other pair untouched and in order. */
  lemma {:induction false} SetParamSpec(ps: seq<Pair>, name: string, value: string)
    ensures var r := SetParam(ps, name, value);
            && Count(r, name) == 1
            && FirstIndex(r, name) == FirstIndex(ps, name)
            && GetParam(r, name) == Some(value)
            && Without(r, name) == Without(ps, name)
  {
    if ps != [] && ps[0].name != name {
      SetParamSpec(ps[1..], name, value);
    }
  }

  /** No pair carries `name` exactly when its count is zero. */
  lemma {:induction false} CountZero(ps: seq<Pair>, name: string)
    ensures Count(ps, name) == 0 <==> forall k | 0 <= k < |ps| :: ps[k].name != name
  {
    if ps != [] {
      CountZero(ps[1..], name);
      assert forall k | 1 <= k < |ps| :: ps[k] == ps[1..][k - 1];
    }
  }

  /** Removing `name` does not change the lookup of any other name. */
  lemma {:induction false} GetWithout(ps: seq<Pair>, name: string, other: string)
    requires other != name
    ensures GetParam(Without(ps, name), other) == GetParam(ps, other)
  {
    if ps != [] {
      GetWithout(ps[1..], name, other);
    }
  }

  /** `set` leaves the lookup of every other name as it was. */
  lemma SetParamKeepsOthers(ps: seq<Pair>, name: string, value: string, other: string)
    requires other != name
    ensures GetParam(SetParam(ps, name, value), other) == GetParam(ps, other)
  {
    GetWithout(SetParam(ps, name, value), name, other);
    GetWithout(ps, name, other);
  }

  lemma UniqueTail(ps: seq<Pair>)
    requires UniqueNames(ps) && ps != []
    ensures UniqueNames(ps[1..])
    ensures Count(ps[1..], ps[0].name) == 0
  {
    forall k | 0 <= k < |ps[1..]| ensures ps[1..][k].name != ps[0].name {
      assert ps[1..][k] == ps[k + 1];
    }
    CountZero(ps[1..], ps[0].name);
  }

  /** On a list without repeated names, `set` overwrites in place when the name
      is present and appends otherwise. */
  lemma {:induction false} SetParamOnUniqueShape(ps: seq<Pair>, name: string, value: string)
    requires UniqueNames(ps)
    ensures SetParam(ps, name, value)
         == if FirstIndex(ps, name) < |ps| then ps[FirstIndex(ps, name) := Pair(name, value)]
            else ps + [Pair(name, value)]
  {
    if ps == [] {
    } else if ps[0].name == name {
      SetParamAtHead(ps, name, value);
    } else {
      UniqueTail(ps);
      SetParamOnUniqueShape(ps[1..], name, value);
      SetParamPastHead(ps, name, value);
      var j := FirstIndex(ps[1..], name);
      if j < |ps| - 1 {
        ReplaceFurther(ps, j, Pair(name, value));
      } else {
        AppendFurther(ps, Pair(name, value));
      }
    }
  }

  lemma SetParamAtHead(ps: seq<Pair>, name: string, value: string)
    requires UniqueNames(ps) && ps != [] && ps[0].name == name
    ensures SetParam(ps, name, value) == ps[0 := Pair(name, value)]
  {
    UniqueTail(ps);
    calc {
      SetParam(ps, name, value);
      [Pair(name, value)] + Without(ps[1..], name);
      [Pair(name, value)] + ps[1..];
      ps[0 := Pair(name, value)];
    }
  }

  /** Past a pair of another name, `set` keeps that pair and works on the rest. */
  lemma SetParamPastHead(ps: seq<Pair>, name: string, value: string)
    requires ps != [] && ps[0].name != name
    ensures SetParam(ps, name, value) == [ps[0]] + SetParam(ps[1..], name, value)
    ensures FirstIndex(ps, name) == 1 + FirstIndex(ps[1..], name)
  {
  }

  lemma ReplaceFurther(ps: seq<Pair>, j: nat, p: Pair)
    requires j < |ps| - 1
    ensures [ps[0]] + ps[1..][j := p] == ps[j + 1 := p]
  {
  }

  lemma AppendFurther(ps: seq<Pair>, p: Pair)
    requires ps != []
    ensures [ps[0]] + (ps[1..] + [p]) == ps + [p]
  {
  }

  /** Every pair before the first one named `name` has another name. */
  lemma {:induction false} FirstIndexIsFirst(ps: seq<Pair>, name: string)
    ensures forall k | 0 <= k < FirstIndex(ps, name) :: ps[k].name != name
  {
    if ps != [] && ps[0].name != name {
      FirstIndexIsFirst(ps[1..], name);
      assert forall k | 1 <= k < |ps| :: ps[k] == ps[1..][k - 1];
    }
  }

  /** ... and the names stay unique, with every old name where it was. */
  lemma SetParamOnUnique(ps: seq<Pair>, name: string, value: string)
    requires UniqueNames(ps)
    ensures UniqueNames(SetParam(ps, name, value))
    ensures |SetParam(ps, name, value)| >= |ps|
    ensures forall k | 0 <= k < |ps| :: SetParam(ps, name, value)[k].name == ps[k].name
  {
    SetParamOnUniqueShape(ps, name, value);
    if FirstIndex(ps, name) == |ps| {
      FirstIndexIsFirst(ps, name);
    }
  }

  /** `set` for every pair of `pairs`, in list order. */
  function SetAll(ps: seq<Pair>, pairs: seq<Pair>): (r: seq<Pair>)
    decreases |pairs|
  {
    if pairs == [] then ps
    else
      var last := pairs[|pairs| - 1];
      SetParam(SetAll(ps, pairs[..|pairs| - 1]), last.name, last.value)
  }

  /** The value of the last pair named `name`, if any. */
  function LastValue(pairs: seq<Pair>, name: string): (v: Option<string>)
    decreases |pairs|
  {
    if pairs == [] then None
    else if pairs[|pairs| - 1].name == name then Some(pairs[|pairs| - 1].value)
    else LastValue(pairs[..|pairs| - 1], name)
  }

  /** After a sequence of `set`s, a name carries the value it was last set to,
      or the value it had before when no `set` touched it. */
  lemma {:induction false} SetAllGet(ps: seq<Pair>, pairs: seq<Pair>, name: string)
    ensures GetParam(SetAll(ps, pairs), name)
         == if LastValue(pairs, name).Some? then LastValue(pairs, name) else GetParam(ps, name)
    decreases |pairs|
  {
    if pairs != [] {
      var init, last := pairs[..|pairs| - 1], pairs[|pairs| - 1];
      SetAllGet(ps, init, name);
      SetParamSpec(SetAll(ps, init), last.name, last.value);
      if last.name != name {
        SetParamKeepsOthers(SetAll(ps, init), last.name, last.value, name);
      }
    }
  }

  /** A sequence of `set`s on a list without repeated names keeps the names
      unique, keeps every existing name at its position and only appends. */
  lemma {:induction false} SetAllOnUnique(ps: seq<Pair>, pairs: seq<Pair>)
    requires UniqueNames(ps)
    ensures UniqueNames(SetAll(ps, pairs))
    ensures |SetAll(ps, pairs)| >= |ps|
    ensures forall k | 0 <= k < |ps| :: SetAll(ps, pairs)[k].name == ps[k].name
    decreases |pairs|
  {
    if pairs != [] {
      var init, last := pairs[..|pairs| - 1], pairs[|pairs| - 1];
      SetAllOnUnique(ps, init);
      SetParamOnUnique(SetAll(ps, init), last.name, last.value);
    }
  }

  /** A name no pair carries is counted zero times and looked up as absent. */
  lemma AbsentName(ps: seq<Pair>, name: string)
    requires forall k | 0 <= k < |ps| :: ps[k].name != name
    ensures Count(ps, name) == 0 && GetParam(ps, name) == None
  {
    CountZero(ps, name);
  }

  /** Appending a pair whose name is new keeps the names unique. */
  lemma AppendFresh(ps: seq<Pair>, p: Pair)
    requires UniqueNames(ps)
    requires forall k | 0 <= k < |ps| :: ps[k].name != p.name
    ensures UniqueNames(ps + [p])
  {
  }

  /** `set` of a new name on a list without repeated names appends it, and
      the names stay unique. */
  lemma SetFresh(ps: seq<Pair>, name: string, value: string)
    requires UniqueNames(ps)
    requires forall k | 0 <= k < |ps| :: ps[k].name != name
    ensures SetParam(ps, name, value) == ps + [Pair(name, value)]
    ensures UniqueNames(ps + [Pair(name, value)])
  {
    AbsentName(ps, name);
    SetParamAbsent(ps, name, value);
    AppendFresh(ps, Pair(name, value));
  }

  /** In a list without repeated names, looking up a pair's name finds that pair. */
  lemma GetParamUnique(ps: seq<Pair>, k: nat)
    requires UniqueNames(ps) && k < |ps|
    ensures GetParam(ps, ps[k].name) == Some(ps[k].value)
  {
    FirstOfUnique(ps, k);
  }

  /** In a list without repeated names, a pair is the first of its name. */
  lemma FirstOfUnique(ps: seq<Pair>, k: nat)
    requires UniqueNames(ps) && k < |ps|
    ensures FirstIndex(ps, ps[k].name) == k
  {
    FirstIndexIsFirst(ps, ps[k].name);
  }

  /** A lookup in a concatenation finds the first part's pair if it has one. */
  lemma {:induction false} GetParamAppend(a: seq<Pair>, b: seq<Pair>, name: string)
    ensures GetParam(a + b, name) == if GetParam(a, name).Some? then GetParam(a, name) else GetParam(b, name)
  {
    if a != [] {
      assert (a + b)[1..] == a[1..] + b;
      GetParamAppend(a[1..], b, name);
    } else {
      assert a + b == b;
    }
  }

  lemma GetParamAppend3(a: seq<Pair>, b: seq<Pair>, c: seq<Pair>, name: string)
    ensures GetParam(a + b + c, name)
         == if GetParam(a, name).Some? then GetParam(a, name)
            else if GetParam(b, name).Some? then GetParam(b, name)
            else GetParam(c, name)
  {
    GetParamAppend(a + b, c, name);
    GetParamAppend(a, b, name);
  }

  /** `set` of a name the list does not hold appends one pair. */
  lemma {:induction false} SetParamAbsent(ps: seq<Pair>, name: string, value: string)
    requires Count(ps, name) == 0
    ensures SetParam(ps, name, value) == ps + [Pair(name, value)]
  {
    if ps != [] {
      assert ps[0].name != name && Count(ps[1..], name) == 0;
      SetParamAbsent(ps[1..], name, value);
      calc {
        SetParam(ps, name, value);
        [ps[0]] + SetParam(ps[1..], name, value);
        [ps[0]] + (ps[1..] + [Pair(name, value)]);
        { assert ps == [ps[0]] + ps[1..]; }
        ps + [Pair(name, value)];
      }
    }
  }

  /** The mutable `URLSearchParams` object: its list is replaced by each `set`. */
  class URLSearchParams {
    var list: seq<Pair>

    /** `new URLSearchParams(record)`: one pair per entry, in entry order. */
    constructor (entries: seq<Pair>)
      ensures list == entries
    {
      list := entries;
    }

    method Set(name: string, value: string)
      modifies this
      ensures list == SetParam(old(list), name, value)
    {
      list := SetParam(list, name, value);
    }

    /** `toString()`: the application/x-www-form-urlencoded serialization. */
    function ToString(): string
      reads this
    {
      Serialize(list)
    }
  }
}
