/**
 * Header collections as the proxy uses them. ASP.NET and System.Net.Http
 * header dictionaries compare names case-insensitively; a `HeaderMap` is
 * therefore keyed by the case-folded name, and every update goes through
 * `Fold`. A collection that is only enumerated (`foreach (var header in ...)`)
 * is a sequence of `Header` entries in enumeration order.
 */
module HttpHeaders {

  /** One enumerated header: its name as spelled and its values. */
  datatype Header = Header(name: string, values: seq<string>)

  /** A case-insensitive header dictionary, keyed by folded names. */
  type HeaderMap = map<string, seq<string>>

  /** Ordinal case folding of one ASCII character. */
  function FoldChar(c: char): (r: char)
    ensures !('A' <= r <= 'Z')
    ensures !('A' <= c <= 'Z') ==> r == c
  {
    if 'A' <= c <= 'Z' then (c as int - 'A' as int + 'a' as int) as char else c
  }

  /** The key under which a case-insensitive dictionary files `s`. */
  function Fold(s: string): (r: string)
    ensures |r| == |s|
    ensures forall i :: 0 <= i < |s| ==> r[i] == FoldChar(s[i])
  {
    if s == [] then [] else [FoldChar(s[0])] + Fold(s[1..])
  }

  /** `Fold` of a string whose folded form is known character by character. */
  lemma FoldIs(s: string, t: string)
    requires |s| == |t| && forall i :: 0 <= i < |s| ==> FoldChar(s[i]) == t[i]
    ensures Fold(s) == t
  {
  }

  /** `string.Equals(a, b, StringComparison.OrdinalIgnoreCase)` on ASCII text. */
  predicate SameIgnoringCase(a: string, b: string) {
    Fold(a) == Fold(b)
  }

  /** Folding a folded name changes nothing. */
  lemma FoldIdempotent(s: string)
    ensures Fold(Fold(s)) == Fold(s)
  {
  }

  /** Every key of `h` is already folded: no two keys differ only in case. */
  predicate Folded(h: HeaderMap) {
    forall k :: k in h ==> Fold(k) == k
  }

  /** The folded names of a sequence of entries. */
  function Names(es: seq<Header>): set<string> {
    set e | e in es :: Fold(e.name)
  }

  /** No later entry of `es` has the name of entry `i`, up to case. */
  predicate LastOfName(es: seq<Header>, i: int)
    requires 0 <= i < |es|
  {
    forall j :: i < j < |es| ==> Fold(es[j].name) != Fold(es[i].name)
  }

  /** The indexer assignment `headers[name] = values`: replaces whatever was filed under the name. */
  function Assign(h: HeaderMap, e: Header): (r: HeaderMap)
    ensures r.Keys == h.Keys + {Fold(e.name)}
    ensures r[Fold(e.name)] == e.values
    ensures forall k :: k in h && k != Fold(e.name) ==> r[k] == h[k]
  {
    h[Fold(e.name) := e.values]
  }

  /** A `foreach` loop of indexer assignments over `es`, in order. */
  function AssignAll(h: HeaderMap, es: seq<Header>): (r: HeaderMap)
    ensures h.Keys <= r.Keys
    ensures es != [] ==> Fold(es[|es| - 1].name) in r && r[Fold(es[|es| - 1].name)] == es[|es| - 1].values
    decreases |es|
  {
    if es == [] then h else Assign(AssignAll(h, es[..|es| - 1]), es[|es| - 1])
  }

  lemma {:induction false} AssignAllKeys(h: HeaderMap, es: seq<Header>)
    ensures AssignAll(h, es).Keys == h.Keys + Names(es)
    decreases |es|
  {
    if es != [] {
      var init := es[..|es| - 1];
      AssignAllKeys(h, init);
      assert es == init + [es[|es| - 1]];
      assert Names(es) == Names(init) + {Fold(es[|es| - 1].name)};
    }
  }

  /** A key none of the entries names keeps its presence and its value. */
  lemma {:induction false} AssignAllUntouched(h: HeaderMap, es: seq<Header>, k: string)
    requires k !in Names(es)
    ensures k in AssignAll(h, es) <==> k in h
    ensures k in h ==> AssignAll(h, es)[k] == h[k]
    decreases |es|
  {
    if es != [] {
      var init := es[..|es| - 1];
      assert forall e :: e in init ==> e in es;
      assert Fold(es[|es| - 1].name) in Names(es);
      AssignAllUntouched(h, init, k);
    }
  }

  /** The last entry with a given name decides the value filed under it. */
  lemma {:induction false} AssignAllLastWins(h: HeaderMap, es: seq<Header>, i: int)
    requires 0 <= i < |es| && LastOfName(es, i)
    ensures Fold(es[i].name) in AssignAll(h, es)
    ensures AssignAll(h, es)[Fold(es[i].name)] == es[i].values
    decreases |es|
  {
    if i < |es| - 1 {
      var init := es[..|es| - 1];
      assert LastOfName(init, i) by {
        forall j | i < j < |init| ensures Fold(init[j].name) != Fold(init[i].name) {
          assert init[j] == es[j];
        }
      }
      AssignAllLastWins(h, init, i);
    }
  }

  lemma {:induction false} AssignAllFolded(h: HeaderMap, es: seq<Header>)
    requires Folded(h)
    ensures Folded(AssignAll(h, es))
    decreases |es|
  {
    if es != [] {
      AssignAllFolded(h, es[..|es| - 1]);
      FoldIdempotent(es[|es| - 1].name);
    }
  }

  /**
   * `TryAddWithoutValidation(name, values)` on a collection that accepts the
   * names `accepts` holds: appends `values` to those already filed under the
   * name; a name the collection refuses leaves it as it was.
   */
  function TryAdd(h: HeaderMap, e: Header, accepts: string -> bool): (r: HeaderMap)
    ensures !accepts(e.name) ==> r == h
    ensures accepts(e.name) ==> r.Keys == h.Keys + {Fold(e.name)}
    ensures accepts(e.name) && Fold(e.name) !in h ==> r[Fold(e.name)] == e.values
    ensures forall k :: k in h ==> h[k] <= r[k]
    ensures forall k :: k in h && k != Fold(e.name) ==> r[k] == h[k]
  {
    if !accepts(e.name) then h
    else
      var k := Fold(e.name);
      h[k := (if k in h then h[k] else []) + e.values]
  }

  /** A `foreach` loop of `TryAddWithoutValidation` calls over `es`, in order. */
  function TryAddAll(h: HeaderMap, es: seq<Header>, accepts: string -> bool): (r: HeaderMap)
    ensures h.Keys <= r.Keys
    ensures forall k :: k in h ==> h[k] <= r[k]
    decreases |es|
  {
    if es == [] then h else TryAdd(TryAddAll(h, es[..|es| - 1], accepts), es[|es| - 1], accepts)
  }

  /** The folded names of the entries the collection accepts. */
  function AcceptedNames(es: seq<Header>, accepts: string -> bool): set<string> {
    set e | e in es && accepts(e.name) :: Fold(e.name)
  }

  /** Starting from an empty collection, exactly the accepted names end up in it. */
  lemma {:induction false} TryAddAllKeys(es: seq<Header>, accepts: string -> bool)
    ensures TryAddAll(map[], es, accepts).Keys == AcceptedNames(es, accepts)
    decreases |es|
  {
    if es != [] {
      var init := es[..|es| - 1];
      var e := es[|es| - 1];
      TryAddAllKeys(init, accepts);
      assert es == init + [e];
      if accepts(e.name) {
        assert AcceptedNames(es, accepts) == AcceptedNames(init, accepts) + {Fold(e.name)};
      } else {
        assert AcceptedNames(es, accepts) == AcceptedNames(init, accepts);
      }
    }
  }

  /** No two entries of `es` have the same name up to case, as in a header dictionary. */
  predicate DistinctNames(es: seq<Header>) {
    forall i, j :: 0 <= i < j < |es| ==> Fold(es[i].name) != Fold(es[j].name)
  }

  /** For entries with distinct names, each accepted entry arrives with exactly its own values. */
  lemma {:induction false} TryAddAllDistinct(es: seq<Header>, accepts: string -> bool, i: int)
    requires DistinctNames(es) && 0 <= i < |es| && accepts(es[i].name)
    ensures Fold(es[i].name) in TryAddAll(map[], es, accepts)
    ensures TryAddAll(map[], es, accepts)[Fold(es[i].name)] == es[i].values
    decreases |es|
  {
    var init := es[..|es| - 1];
    var k := Fold(es[i].name);
    if i < |es| - 1 {
      TryAddAllDistinct(init, accepts, i);
    } else {
      TryAddAllKeys(init, accepts);
      assert k !in AcceptedNames(init, accepts) by {
        forall e | e in init ensures Fold(e.name) != k {
          var j :| 0 <= j < |init| && init[j] == e;
        }
      }
    }
  }
}
