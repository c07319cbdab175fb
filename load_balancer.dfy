/**
 * The round-robin load balancer with stylesheet affinity. `Cursor` is the
 * balancer's state as a value and `Select` is one `getUri` call on it; the
 * class `LoadBalancer` holds the same state in fields and its `GetUri`
 * method is proved to perform exactly `Select`. `Run` strings consecutive
 * calls together, and the lemmas at the end state the schedule they follow.
 */
module LoadBalancing {

  /** The two downstream base addresses the balancer is configured with. */
  const DefaultDownstreams: seq<string> := ["http://localhost:5118", "https://localhost:7069"]

  /** `sub` occurs in `s` starting at index `i`. */
  predicate OccursAt(s: string, sub: string, i: int) {
    0 <= i && i + |sub| <= |s| && s[i..i + |sub|] == sub
  }

  /** `string.Contains`: `sub` occurs somewhere in `s`. */
  function Contains(s: string, sub: string): (r: bool)
    ensures r <==> exists i :: OccursAt(s, sub, i)
    decreases |s|
  {
    if |sub| > |s| then false
    else if s[..|sub|] == sub then assert OccursAt(s, sub, 0); true
    else
      OccursInTail(s, sub);
      Contains(s[1..], sub)
  }

  /** An occurrence of `sub` in `s` away from index 0 is an occurrence in `s[1..]`. */
  lemma OccursInTail(s: string, sub: string)
    requires |s| >= 1 && !OccursAt(s, sub, 0)
    ensures (exists i :: OccursAt(s, sub, i)) <==> (exists j :: OccursAt(s[1..], sub, j))
  {
    if exists i :: OccursAt(s, sub, i) {
      var i :| OccursAt(s, sub, i);
      assert s[1..][i - 1..i - 1 + |sub|] == s[i..i + |sub|];
      assert OccursAt(s[1..], sub, i - 1);
    }
    if exists j :: OccursAt(s[1..], sub, j) {
      var j :| OccursAt(s[1..], sub, j);
      assert s[1..][j..j + |sub|] == s[j + 1..j + 1 + |sub|];
      assert OccursAt(s, sub, j + 1);
    }
  }

  /** A request path the balancer treats as a stylesheet: ".css" anywhere in it. */
  predicate IsStylesheet(path: string) {
    Contains(path, ".css")
  }

  /** The balancer's fields: `downstreams`, `_size`, `_position` and `_last`. */
  datatype Cursor = Cursor(downstreams: seq<string>, size: int, position: int, last: int)

  /** The invariant every call keeps. */
  predicate Inv(c: Cursor) {
    && c.size == |c.downstreams|
    && 1 <= c.size
    && 0 <= c.position <= c.size
    && 0 <= c.last < c.size
  }

  /** A freshly constructed balancer over `downstreams`. */
  function Fresh(downstreams: seq<string>): Cursor {
    Cursor(downstreams, |downstreams|, 0, 0)
  }

  /** The position after the wrap from `size` back to 0 that opens every locked call. */
  function Wrapped(c: Cursor): int {
    if c.position == c.size then 0 else c.position
  }

  /** The outcome of one call: the balancer state afterwards and the target URI. */
  datatype Selection = Selection(next: Cursor, uri: string)

  /** One `getUri(path)` call. */
  function Select(c: Cursor, path: string): (r: Selection)
    requires Inv(c)
    ensures Inv(r.next)
    ensures r.next.downstreams == c.downstreams && r.next.size == c.size
    ensures exists i :: 0 <= i < c.size && r.uri == c.downstreams[i] + path
    ensures c.size == 1 ==> r.next == c && r.uri == c.downstreams[0] + path
    ensures c.size > 1 && IsStylesheet(path) ==>
      && r.uri == c.downstreams[c.last] + path
      && r.next.last == c.last
      && r.next.position == Wrapped(c)
    ensures c.size > 1 && !IsStylesheet(path) ==>
      && r.uri == c.downstreams[Wrapped(c)] + path
      && r.next.last == Wrapped(c)
      && r.next.position == Wrapped(c) + 1
  {
    if c.size == 1 then
      Selection(c, c.downstreams[0] + path)
    else
      var c' := c.(position := Wrapped(c));
      if IsStylesheet(path) then
        Selection(c', c.downstreams[c.last] + path)
      else
        Selection(c'.(last := c'.position, position := c'.position + 1), c.downstreams[c'.position] + path)
  }

  /** The target URIs of consecutive calls for `paths`, in order. */
  function Run(c: Cursor, paths: seq<string>): (r: seq<string>)
    requires Inv(c)
    ensures |r| == |paths|
    decreases |paths|
  {
    if paths == [] then []
    else
      var s := Select(c, paths[0]);
      [s.uri] + Run(s.next, paths[1..])
  }

  /** How many of `paths` are not stylesheets, that is, advance the round robin. */
  function Pages(paths: seq<string>): (n: nat)
    ensures n <= |paths|
    decreases |paths|
  {
    if paths == [] then 0 else (if IsStylesheet(paths[0]) then 0 else 1) + Pages(paths[1..])
  }

  /** The index of the downstream the next call for `path` picks, after `k` earlier non-stylesheet calls. */
  function Scheduled(c: Cursor, k: nat, path: string): int
    requires Inv(c)
  {
    if IsStylesheet(path) then (if k == 0 then c.last else (c.position + k - 1) % c.size)
    else (c.position + k) % c.size
  }

  lemma MulAtLeast(n: int, t: int)
    requires n > 0 && t >= 1
    ensures n * t >= n
  {
  }

  /** Euclidean division has one remainder: `r` is `a % n` whenever `a == n * q + r`. */
  lemma ModUnique(a: int, n: int, q: int, r: int)
    requires n > 0 && 0 <= r < n && a == n * q + r
    ensures a % n == r
  {
    var q0, r0 := a / n, a % n;
    var t := q - q0;
    assert n * t == r0 - r by { assert n * q - n * q0 == n * t; }
    if t >= 1 {
      MulAtLeast(n, t);
    } else if t <= -1 {
      MulAtLeast(n, -t);
    }
  }

  lemma ModShift(y: int, n: int)
    requires n > 0
    ensures (y + n) % n == y % n
  {
    ModUnique(y, n, y / n, y % n);
    ModUnique(y + n, n, y / n + 1, y % n);
  }

  /** The wrap at the start of a call leaves the position unchanged modulo `size`. */
  lemma WrappedIsMod(c: Cursor)
    requires Inv(c)
    ensures Wrapped(c) == c.position % c.size
  {
    if c.position == c.size {
      ModUnique(c.position, c.size, 1, 0);
    } else {
      ModUnique(c.position, c.size, 0, c.position);
    }
  }

  /** After one call, positions are those of the old cursor shifted by the calls that advanced. */
  lemma StepShift(c: Cursor, path: string, e: int)
    requires Inv(c) && c.size > 1
    ensures var d := if IsStylesheet(path) then 0 else 1;
      (Select(c, path).next.position + e) % c.size == (c.position + d + e) % c.size
  {
    var d := if IsStylesheet(path) then 0 else 1;
    if c.position == c.size {
      ModShift(d + e, c.size);
    }
  }

  /** The first call picks downstream number `Scheduled(c, 0, path)`. */
  lemma ScheduledFirst(c: Cursor, path: string)
    requires Inv(c)
    ensures 0 <= Scheduled(c, 0, path) < c.size
    ensures Select(c, path).uri == c.downstreams[Scheduled(c, 0, path)] + path
  {
    WrappedIsMod(c);
    if c.size == 1 {
      ModUnique(c.position, 1, c.position, 0);
    }
  }

  /** One call for `first` turns the schedule of the old cursor into that of the new one. */
  lemma ScheduledStep(c: Cursor, first: string, k: nat, path: string)
    requires Inv(c)
    ensures Scheduled(c, (if IsStylesheet(first) then 0 else 1) + k, path)
         == Scheduled(Select(c, first).next, k, path)
  {
    var d := if IsStylesheet(first) then 0 else 1;
    if c.size == 1 {
      ModUnique(c.position + d + k, 1, c.position + d + k, 0);
      ModUnique(c.position + d + k - 1, 1, c.position + d + k - 1, 0);
    } else {
      StepShift(c, first, k);
      StepShift(c, first, k as int - 1);
      if d == 1 {
        WrappedIsMod(c);
      }
    }
  }

  /**
   * The whole schedule: the i-th call picks downstream number
   * `Scheduled(c, k, paths[i])`, where k counts the non-stylesheet calls
   * before it. A non-stylesheet call takes the round robin's next downstream;
   * a stylesheet call takes the one the latest non-stylesheet call took.
   */
  lemma {:induction false} RunSchedule(c: Cursor, paths: seq<string>, i: int)
    requires Inv(c) && 0 <= i < |paths|
    ensures 0 <= Scheduled(c, Pages(paths[..i]), paths[i]) < c.size
    ensures Run(c, paths)[i] == c.downstreams[Scheduled(c, Pages(paths[..i]), paths[i])] + paths[i]
    decreases i
  {
    var s := Select(c, paths[0]);
    if i == 0 {
      assert paths[..0] == [];
      ScheduledFirst(c, paths[0]);
    } else {
      var rest := paths[1..];
      RunSchedule(s.next, rest, i - 1);
      assert paths[..i] == [paths[0]] + rest[..i - 1];
      ScheduledStep(c, paths[0], Pages(rest[..i - 1]), paths[i]);
    }
  }

  /** No stylesheet among `paths`: every call advances the round robin. */
  lemma {:induction false} PagesWithoutStylesheets(paths: seq<string>)
    requires forall j :: 0 <= j < |paths| ==> !IsStylesheet(paths[j])
    ensures Pages(paths) == |paths|
    decreases |paths|
  {
    if paths != [] {
      PagesWithoutStylesheets(paths[1..]);
    }
  }

  /** From a fresh balancer, the i-th of consecutive non-stylesheet calls goes to downstream `i % size`. */
  lemma RoundRobin(downstreams: seq<string>, paths: seq<string>, i: int)
    requires |downstreams| >= 1 && 0 <= i < |paths|
    requires forall j :: 0 <= j < |paths| ==> !IsStylesheet(paths[j])
    ensures Run(Fresh(downstreams), paths)[i] == downstreams[i % |downstreams|] + paths[i]
  {
    var c := Fresh(downstreams);
    RunSchedule(c, paths, i);
    PagesWithoutStylesheets(paths[..i]);
    assert Scheduled(c, Pages(paths[..i]), paths[i]) == i % |downstreams|;
  }

  /** A stylesheet call right after a non-stylesheet call goes to the same downstream. */
  lemma StylesheetFollowsPage(c: Cursor, page: string, sheet: string)
    requires Inv(c) && !IsStylesheet(page) && IsStylesheet(sheet)
    ensures var r, b := Run(c, [page, sheet]), c.downstreams[Select(c, page).next.last];
      r[0] == b + page && r[1] == b + sheet
  {
    assert [page, sheet][1..] == [sheet];
  }

  /** The balancer as the source holds it: fields updated in place under a lock. */
  class LoadBalancer {
    const downstreams: seq<string>
    var size: int
    var position: int
    var last: int

    /** The fields as a value. */
    function State(): Cursor
      reads this
    {
      Cursor(downstreams, size, position, last)
    }

    ghost predicate Valid()
      reads this
    {
      Inv(State())
    }

    /** `new LoadBalancer()`: the two configured downstreams, starting at the first. */
    constructor ()
      ensures Valid() && State() == Fresh(DefaultDownstreams)
    {
      downstreams := DefaultDownstreams;
      size := |DefaultDownstreams|;
      position := 0;
      last := 0;
    }

    /** `getUri(value)`: the target URI for the request path `value`. */
    method GetUri(value: string) returns (uri: string)
      requires Valid()
      modifies this
      ensures Valid()
      ensures Selection(State(), uri) == Select(old(State()), value)
      ensures size == old(size)
      ensures exists i :: 0 <= i < size && uri == downstreams[i] + value
    {
      if size == 1 {
        return downstreams[0] + value;
      }
      if position == size {
        position := 0;
      }
      if Contains(value, ".css") {
        return downstreams[last] + value;
      }
      last := position;
      uri := downstreams[position] + value;
      position := position + 1;
    }
  }
}
