/**
 * The part of `System.Uri` the proxy relies on: a target URI is the text
 * `base + path`, and `Uri.Host` is the host name of its authority.
 */
module Uris {
  import opened Wrappers

  /** `u` has the scheme separator "://" starting at index `i`. */
  predicate SeparatorAt(u: string, i: int) {
    0 <= i && i + 3 <= |u| && u[i] == ':' && u[i + 1] == '/' && u[i + 2] == '/'
  }

  /** What follows the first "://" of `u`, if `u` has one. */
  function AfterSchemeSeparator(u: string): (r: Option<string>)
    ensures r.Some? ==> |r.value| + 3 <= |u| && SeparatorAt(u, |u| - |r.value| - 3) && r.value == u[|u| - |r.value|..]
    ensures r.Some? ==> forall i :: 0 <= i < |u| - |r.value| - 3 ==> !SeparatorAt(u, i)
    ensures r.None? ==> forall i :: !SeparatorAt(u, i)
    decreases |u|
  {
    if |u| < 3 then None
    else if SeparatorAt(u, 0) then Some(u[3..])
    else
      var r := AfterSchemeSeparator(u[1..]);
      assert forall i :: 1 <= i ==> (SeparatorAt(u, i) <==> SeparatorAt(u[1..], i - 1));
      r
  }

  /** The longest prefix of `s` holding none of `stops`. */
  function TakeUntil(s: string, stops: set<char>): (r: string)
    ensures r <= s
    ensures forall i :: 0 <= i < |r| ==> r[i] !in stops
    ensures |r| < |s| ==> s[|r|] in stops
    decreases |s|
  {
    if s == [] || s[0] in stops then [] else [s[0]] + TakeUntil(s[1..], stops)
  }

  /** The characters that end the host part of an authority. */
  const HostTerminators: set<char> := {':', '/', '?', '#'}

  /** `Uri.Host` for an absolute URI without user information or an IPv6 literal. */
  function Host(u: string): (r: string)
    ensures forall i :: 0 <= i < |r| ==> r[i] !in HostTerminators
    ensures AfterSchemeSeparator(u).Some? ==> r <= AfterSchemeSeparator(u).value
    ensures AfterSchemeSeparator(u).None? ==> r <= u
  {
    var rest := match AfterSchemeSeparator(u) case Some(a) => a case None => u;
    TakeUntil(rest, HostTerminators)
  }

  /** A scheme without a separator of its own puts what follows its "://" after the first separator. */
  lemma AfterScheme(scheme: string, tail: string)
    requires forall i :: !SeparatorAt(scheme + ":", i)
    ensures AfterSchemeSeparator(scheme + "://" + tail) == Some(tail)
  {
    var u := scheme + "://" + tail;
    forall i | 0 <= i < |scheme| ensures !SeparatorAt(u, i) {
      assert !SeparatorAt(scheme + ":", i);
      assert (scheme + ":")[..|scheme| + 1] == u[..|scheme| + 1];
    }
    assert SeparatorAt(u, |scheme|);
    var a := AfterSchemeSeparator(u);
    assert |u| - |a.value| - 3 == |scheme|;
  }

  /** `TakeUntil` stops exactly at the first stop character. */
  lemma {:induction false} TakeUntilStop(name: string, c: char, rest: string, stops: set<char>)
    requires forall i :: 0 <= i < |name| ==> name[i] !in stops
    requires c in stops
    ensures TakeUntil(name + [c] + rest, stops) == name
  {
    var r := TakeUntil(name + [c] + rest, stops);
    assert (name + [c] + rest)[|name|] == c;
    assert |r| == |name|;
    assert r == (name + [c] + rest)[..|r|] == name;
  }

  /** The host of `scheme + "://" + name + ":" + rest` is `name` whatever `rest` holds. */
  lemma HostOfAuthority(scheme: string, name: string, rest: string)
    requires forall i :: !SeparatorAt(scheme + ":", i)
    requires forall i :: 0 <= i < |name| ==> name[i] !in HostTerminators
    ensures Host(scheme + "://" + name + ":" + rest) == name
  {
    var tail := name + ":" + rest;
    assert scheme + "://" + tail == scheme + "://" + name + ":" + rest;
    AfterScheme(scheme, tail);
    TakeUntilStop(name, ':', rest, HostTerminators);
  }
}
