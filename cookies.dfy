/** The request's cookie jar (SvelteKit `Cookies`): a mutable map from cookie
    name to value and attributes. Every access is also appended to a ghost
    trace, so that specifications can speak about the ORDER in which the OAuth
    flow reads, writes and deletes its cookies. */
module Cookies {
  import opened Wrappers

  datatype SameSite = Lax | Strict | NoRestriction

  /** The attributes passed to `cookies.set`; `maxAge` is in seconds and is
      recorded, not enforced (there is no clock in this model). */
  datatype CookieOptions = CookieOptions(httpOnly: bool, secure: bool, sameSite: SameSite, maxAge: nat, path: string)

  datatype Cookie = Cookie(value: string, options: CookieOptions)

  /** One access to the jar. */
  datatype Access = Read(name: string) | Write(name: string, value: string) | Remove(name: string)

  /** The entry of a cookie map under `name`, if any. */
  function Entry(cookies: map<string, Cookie>, name: string): Option<Cookie> {
    if name in cookies then Some(cookies[name]) else None
  }

  class CookieJar {
    var cookies: map<string, Cookie>
    ghost var trace: seq<Access>

    constructor (initial: map<string, Cookie>)
      ensures cookies == initial && trace == []
    {
      cookies := initial;
      trace := [];
    }

    /** The value stored under `name`, without recording an access. */
    function Lookup(name: string): Option<string>
      reads this
    {
      if name in cookies then Some(cookies[name].value) else None
    }

    /** `cookies.get(name)`. */
    method Get(name: string) returns (v: Option<string>)
      modifies this`trace
      ensures v == Lookup(name)
      ensures trace == old(trace) + [Read(name)]
    {
      v := if name in cookies then Some(cookies[name].value) else None;
      trace := trace + [Read(name)];
    }

    /** `cookies.set(name, value, options)`: replaces any earlier cookie of that name. */
    method Set(name: string, value: string, options: CookieOptions)
      modifies this
      ensures cookies == old(cookies)[name := Cookie(value, options)]
      ensures trace == old(trace) + [Write(name, value)]
    {
      cookies := cookies[name := Cookie(value, options)];
      trace := trace + [Write(name, value)];
    }

    /** `cookies.delete(name, { path: '/' })`: the cookie is gone afterwards,
        whether or not it was there. */
    method Delete(name: string)
      modifies this
      ensures cookies == old(cookies) - {name}
      ensures trace == old(trace) + [Remove(name)]
    {
      cookies := cookies - {name};
      trace := trace + [Remove(name)];
    }
  }
}
