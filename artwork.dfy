/** The catalog record shown in the grid, and the id-based queries that the
    selection logic performs on lists of records. */
module Artworks {

  datatype Option<T> = None | Some(value: T)

  /** One artwork as returned by the remote catalog. `id` is the only key
      ever compared; the other fields are carried along unchanged. */
  datatype Artwork = Artwork(id: int, title: string, artistTitle: string, dateDisplay: string)

  /** `s.some(e => e.id === id)`: whether some record of `s` carries `id`. */
  function HasId(s: seq<Artwork>, id: int): (b: bool)
    ensures b <==> exists k :: 0 <= k < |s| && s[k].id == id
  {
    if s == [] then false
    else s[0].id == id || HasId(s[1..], id)
  }

  /** The first record of `s` whose key is `id`, if there is one. */
  function Lookup(s: seq<Artwork>, id: int): (r: Option<Artwork>)
    ensures r.None? <==> !HasId(s, id)
    ensures r.Some? ==> r.value in s && r.value.id == id
  {
    if s == [] then None
    else if s[0].id == id then Some(s[0])
    else Lookup(s[1..], id)
  }

  /** No two records of `s` share a key. */
  predicate DistinctIds(s: seq<Artwork>)
  {
    forall i, j :: 0 <= i < j < |s| ==> s[i].id != s[j].id
  }

  /** Lookup returns the record at the first position holding `id`. */
  lemma {:induction false} LookupIsFirst(s: seq<Artwork>, k: nat)
    requires k < |s|
    requires forall j :: 0 <= j < k ==> s[j].id != s[k].id
    ensures Lookup(s, s[k].id) == Some(s[k])
  {
    if k > 0 {
      assert s[1..][k - 1] == s[k];
      LookupIsFirst(s[1..], k - 1);
    }
  }

  /** Key presence in a concatenation. */
  lemma {:induction false} HasIdAppend(a: seq<Artwork>, b: seq<Artwork>, id: int)
    ensures HasId(a + b, id) <==> HasId(a, id) || HasId(b, id)
  {
    if HasId(a + b, id) {
      var k :| 0 <= k < |a + b| && (a + b)[k].id == id;
      if k < |a| { assert a[k].id == id; } else { assert b[k - |a|].id == id; }
    }
    if HasId(a, id) {
      var k :| 0 <= k < |a| && a[k].id == id;
      assert (a + b)[k].id == id;
    }
    if HasId(b, id) {
      var k :| 0 <= k < |b| && b[k].id == id;
      assert (a + b)[|a| + k].id == id;
    }
  }

  /** Looking a key up in a concatenation searches the left part first. */
  lemma {:induction false} LookupAppend(a: seq<Artwork>, b: seq<Artwork>, id: int)
    ensures Lookup(a + b, id) == if HasId(a, id) then Lookup(a, id) else Lookup(b, id)
  {
    if a != [] {
      assert (a + b)[0] == a[0];
      assert (a + b)[1..] == a[1..] + b;
      LookupAppend(a[1..], b, id);
    } else {
      assert a + b == b;
    }
  }
}
