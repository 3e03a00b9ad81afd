/**
 * Merging the providers' top-10 lists into one dict keyed by TMDb id, with
 * Python dict semantics: a key keeps the position of its first insertion,
 * and the record stored under it is the last one written.
 */
module Aggregate {
  import opened Wrappers
  import opened Catalog

  /** A dict from TMDb id to movie: keys in insertion order, records by key. */
  datatype Dict = Dict(keys: seq<int>, values: map<int, Movie>)

  const Empty: Dict := Dict([], map[])

  /** Each key once, keys and map agree, and every record is stored under its own id. */
  ghost predicate Valid(d: Dict)
  {
    && (forall a, b :: 0 <= a < b < |d.keys| ==> d.keys[a] != d.keys[b])
    && (forall i :: 0 <= i < |d.keys| ==> d.keys[i] in d.values)
    && (forall k :: k in d.values ==> k in d.keys)
    && (forall k :: k in d.values ==> d.values[k].id == k)
  }

  /** `d[m.id] = m`: an existing key keeps its place and takes the new record; a new key goes last. */
  function Put(d: Dict, m: Movie): Dict
  {
    if m.id in d.values then Dict(d.keys, d.values[m.id := m])
    else Dict(d.keys + [m.id], d.values[m.id := m])
  }

  /** Storing the movies of ms one after another. */
  function PutAll(d: Dict, ms: seq<Movie>): Dict
  {
    if ms == [] then d else Put(PutAll(d, ms[..|ms| - 1]), ms[|ms| - 1])
  }

  /** Storing a record keeps every key once and every record under its own id. */
  lemma PutValid(d: Dict, m: Movie)
    requires Valid(d)
    ensures Valid(Put(d, m))
  {
  }

  lemma {:induction false} PutAllValid(d: Dict, ms: seq<Movie>)
    requires Valid(d)
    ensures Valid(PutAll(d, ms))
  {
    if ms != [] {
      PutAllValid(d, ms[..|ms| - 1]);
      PutValid(PutAll(d, ms[..|ms| - 1]), ms[|ms| - 1]);
    }
  }

  /** The top-10 lists of all providers, one after another in configuration order. */
  function Flat(lists: seq<seq<Movie>>): seq<Movie>
  {
    if lists == [] then [] else Flat(lists[..|lists| - 1]) + Top10(lists[|lists| - 1])
  }

  /** The dict the provider loop builds. */
  function Merge(lists: seq<seq<Movie>>): (r: Dict)
    ensures Valid(r)
  {
    PutAllValid(Empty, Flat(lists));
    PutAll(Empty, Flat(lists))
  }

  /** `dict.values()`: the stored records in key order. */
  function Values(d: Dict): (r: seq<Movie>)
    requires Valid(d)
    ensures |r| == |d.keys|
    ensures forall i :: 0 <= i < |r| ==> r[i] == d.values[d.keys[i]]
  {
    seq(|d.keys|, i requires 0 <= i < |d.keys| && d.keys[i] in d.values => d.values[d.keys[i]])
  }

  /** The titles the decision loop visits, in order. */
  function Candidates(lists: seq<seq<Movie>>): seq<Movie>
  {
    Values(Merge(lists))
  }

  /** Position of the first entry with this id. */
  function FirstIndex(ms: seq<Movie>, id: int): (r: nat)
    requires HasId(ms, id)
    ensures r < |ms| && ms[r].id == id
    ensures forall j :: 0 <= j < r ==> ms[j].id != id
  {
    if ms[0].id == id then 0
    else
      assert HasId(ms[1..], id) by {
        var i :| 0 <= i < |ms| && ms[i].id == id;
        assert ms[1..][i - 1].id == id;
      }
      1 + FirstIndex(ms[1..], id)
  }

  /** Position of the last entry with this id. */
  function LastIndex(ms: seq<Movie>, id: int): (r: nat)
    requires HasId(ms, id)
    ensures r < |ms| && ms[r].id == id
    ensures forall j :: r < j < |ms| ==> ms[j].id != id
  {
    var n := |ms| - 1;
    if ms[n].id == id then n
    else
      assert HasId(ms[..n], id) by {
        var i :| 0 <= i < |ms| && ms[i].id == id;
        assert ms[..n][i].id == id;
      }
      LastIndex(ms[..n], id)
  }

  /** The keys after storing ms are the old keys and the ids in ms. */
  lemma {:induction false} PutAllKeys(d: Dict, ms: seq<Movie>, k: int)
    ensures k in PutAll(d, ms).values <==> k in d.values || HasId(ms, k)
  {
    if ms != [] {
      var n := |ms| - 1;
      PutAllKeys(d, ms[..n], k);
      if HasId(ms, k) && ms[n].id != k {
        var i :| 0 <= i < |ms| && ms[i].id == k;
        assert ms[..n][i].id == k;
      }
      if HasId(ms[..n], k) {
        var i :| 0 <= i < n && ms[..n][i].id == k;
        assert ms[i].id == k;
      }
    }
  }

  /** The record stored under an id of ms is the last entry of ms with that id. */
  lemma {:induction false} PutAllRecord(d: Dict, ms: seq<Movie>, k: int)
    requires HasId(ms, k)
    ensures k in PutAll(d, ms).values && PutAll(d, ms).values[k] == ms[LastIndex(ms, k)]
  {
    var n := |ms| - 1;
    if ms[n].id != k {
      assert HasId(ms[..n], k) by {
        assert ms[..n][LastIndex(ms, k)].id == k;
      }
      PutAllRecord(d, ms[..n], k);
    }
  }

  /** An id present in a prefix first appears at the same place in the whole. */
  lemma FirstIndexPrefix(ms: seq<Movie>, n: nat, k: int)
    requires n <= |ms| && HasId(ms[..n], k)
    ensures HasId(ms, k) && FirstIndex(ms, k) == FirstIndex(ms[..n], k)
  {
    var f := FirstIndex(ms[..n], k);
    assert ms[f].id == k;
  }

  /** Keys stand in the order in which their ids first appear in ms. */
  lemma {:induction false} PutAllOrder(ms: seq<Movie>, a: nat, b: nat)
    requires a < b < |PutAll(Empty, ms).keys|
    ensures HasId(ms, PutAll(Empty, ms).keys[a]) && HasId(ms, PutAll(Empty, ms).keys[b])
    ensures FirstIndex(ms, PutAll(Empty, ms).keys[a]) < FirstIndex(ms, PutAll(Empty, ms).keys[b])
  {
    var n := |ms| - 1;
    var prev, d := PutAll(Empty, ms[..n]), PutAll(Empty, ms);
    var ka, kb := d.keys[a], d.keys[b];
    if b < |prev.keys| {
      PutAllOrder(ms[..n], a, b);
      FirstIndexPrefix(ms, n, ka);
      FirstIndexPrefix(ms, n, kb);
    } else {
      // kb is the id of the last entry, new to the keys of the prefix
      PutAllValid(Empty, ms[..n]);
      assert kb == ms[n].id && kb !in prev.values;
      PutAllKeys(Empty, ms[..n], kb);
      assert ka in prev.values;
      PutAllKeys(Empty, ms[..n], ka);
      FirstIndexPrefix(ms, n, ka);
      assert forall j :: 0 <= j < n ==> ms[..n][j] == ms[j];
    }
  }

  /** An id is in a concatenation exactly when it is in one of the parts. */
  lemma HasIdConcat(front: seq<Movie>, top: seq<Movie>, id: int)
    ensures HasId(front + top, id) <==> HasId(front, id) || HasId(top, id)
  {
    var flat := front + top;
    if HasId(flat, id) {
      var i :| 0 <= i < |flat| && flat[i].id == id;
      if i < |front| {
        assert front[i].id == id;
      } else {
        assert top[i - |front|].id == id;
      }
    }
    if HasId(front, id) {
      var i :| 0 <= i < |front| && front[i].id == id;
      assert flat[i].id == id;
    }
    if HasId(top, id) {
      var i :| 0 <= i < |top| && top[i].id == id;
      assert flat[|front| + i].id == id;
    }
  }

  /** A provider's listed id is in the flattened lists. */
  lemma {:induction false} FlatHasListed(lists: seq<seq<Movie>>, id: int, k: nat)
    requires k < |lists| && HasId(Top10(lists[k]), id)
    ensures HasId(Flat(lists), id)
  {
    var n := |lists| - 1;
    if k < n {
      assert lists[..n][k] == lists[k];
      FlatHasListed(lists[..n], id, k);
    }
    HasIdConcat(Flat(lists[..n]), Top10(lists[n]), id);
  }

  /** An id no provider lists is not in the flattened lists. */
  lemma {:induction false} FlatHasOnlyListed(lists: seq<seq<Movie>>, id: int)
    requires forall k :: 0 <= k < |lists| ==> !HasId(Top10(lists[k]), id)
    ensures !HasId(Flat(lists), id)
  {
    if lists != [] {
      var n := |lists| - 1;
      assert forall k :: 0 <= k < n ==> lists[..n][k] == lists[k];
      FlatHasOnlyListed(lists[..n], id);
      HasIdConcat(Flat(lists[..n]), Top10(lists[n]), id);
    }
  }

  /** An id is in the flattened lists exactly when some provider's top-10 list holds it. */
  lemma FlatHasId(lists: seq<seq<Movie>>, id: int)
    ensures HasId(Flat(lists), id) <==> exists k :: 0 <= k < |lists| && HasId(Top10(lists[k]), id)
  {
    if k :| 0 <= k < |lists| && HasId(Top10(lists[k]), id) {
      FlatHasListed(lists, id, k);
    } else {
      FlatHasOnlyListed(lists, id);
    }
  }

  /** The last index is the one position holding the id with none after it. */
  lemma LastIndexUnique(ms: seq<Movie>, id: int, r: nat)
    requires r < |ms| && ms[r].id == id
    requires forall j :: r < j < |ms| ==> ms[j].id != id
    ensures LastIndex(ms, id) == r
  {
    var l := LastIndex(ms, id);
    assert !(l < r);
    assert !(r < l);
  }

  /** When the tail holds the id, the last entry with it is in the tail. */
  lemma LastIndexInTail(front: seq<Movie>, top: seq<Movie>, id: int)
    requires HasId(top, id)
    ensures HasId(front + top, id)
    ensures LastIndex(front + top, id) == |front| + LastIndex(top, id)
    ensures (front + top)[LastIndex(front + top, id)] == top[LastIndex(top, id)]
  {
    var flat, t := front + top, LastIndex(top, id);
    assert flat[|front| + t] == top[t];
    assert forall j :: |front| + t < j < |flat| ==> flat[j] == top[j - |front|];
    LastIndexUnique(flat, id, |front| + t);
  }

  /** When only the head holds the id, the last entry with it is the head's. */
  lemma LastIndexInHead(front: seq<Movie>, top: seq<Movie>, id: int)
    requires HasId(front, id) && !HasId(top, id)
    ensures HasId(front + top, id)
    ensures LastIndex(front + top, id) == LastIndex(front, id)
    ensures (front + top)[LastIndex(front + top, id)] == front[LastIndex(front, id)]
  {
    var flat, f := front + top, LastIndex(front, id);
    assert flat[f] == front[f];
    assert forall j :: |front| <= j < |flat| ==> flat[j] == top[j - |front|];
    assert forall j :: f < j < |front| ==> flat[j] == front[j];
    LastIndexUnique(flat, id, f);
  }

  /** The last entry with an id in the flattened lists lies in the last provider list holding it. */
  lemma {:induction false} FlatLastIndex(lists: seq<seq<Movie>>, id: int, k: nat)
    requires k < |lists| && HasId(Top10(lists[k]), id)
    requires forall j :: k < j < |lists| ==> !HasId(Top10(lists[j]), id)
    ensures HasId(Flat(lists), id)
    ensures Flat(lists)[LastIndex(Flat(lists), id)] == Top10(lists[k])[LastIndex(Top10(lists[k]), id)]
  {
    var n := |lists| - 1;
    var front, top := Flat(lists[..n]), Top10(lists[n]);
    assert Flat(lists) == front + top;
    if k == n {
      LastIndexInTail(front, top, id);
    } else {
      assert lists[..n][k] == lists[k];
      assert forall j :: k < j < n ==> lists[..n][j] == lists[j];
      FlatLastIndex(lists[..n], id, k);
      assert !HasId(top, id);
      LastIndexInHead(front, top, id);
    }
  }

  /** Exactly the ids some provider's top-10 list holds end up as keys of the merge. */
  lemma MergeKeys(lists: seq<seq<Movie>>, id: int)
    ensures id in Merge(lists).values <==> exists k :: 0 <= k < |lists| && HasId(Top10(lists[k]), id)
  {
    PutAllKeys(Empty, Flat(lists), id);
    FlatHasId(lists, id);
  }

  /**
   * The record kept for an id comes from the last provider, in configuration
   * order, whose top-10 list holds that id (its last entry with that id).
   */
  lemma MergeKeepsLastProvider(lists: seq<seq<Movie>>, id: int, k: nat)
    requires k < |lists| && HasId(Top10(lists[k]), id)
    requires forall j :: k < j < |lists| ==> !HasId(Top10(lists[j]), id)
    ensures id in Merge(lists).values
    ensures Merge(lists).values[id] == Top10(lists[k])[LastIndex(Top10(lists[k]), id)]
  {
    FlatLastIndex(lists, id, k);
    PutAllRecord(Empty, Flat(lists), id);
  }

  /** Keys of the merge stand in the order of their first appearance across the lists. */
  lemma MergeFirstInsertionOrder(lists: seq<seq<Movie>>, a: nat, b: nat)
    requires a < b < |Merge(lists).keys|
    ensures HasId(Flat(lists), Merge(lists).keys[a]) && HasId(Flat(lists), Merge(lists).keys[b])
    ensures FirstIndex(Flat(lists), Merge(lists).keys[a]) < FirstIndex(Flat(lists), Merge(lists).keys[b])
  {
    PutAllOrder(Flat(lists), a, b);
  }

  /** Every candidate is listed by some provider, so it is attributed to a configured provider. */
  lemma CandidateHasProviderSource(providers: seq<Provider>, lists: seq<seq<Movie>>, i: nat)
    requires |lists| == |providers|
    requires forall p :: 0 <= p < |providers| ==> providers[p].name != ""
    requires i < |Candidates(lists)|
    ensures FirstListing(lists, Candidates(lists)[i].id).Some?
    ensures exists k :: 0 <= k < |providers| && HasId(Top10(lists[k]), Candidates(lists)[i].id)
                        && SourceOf(providers, lists, Candidates(lists)[i].id) == SourceKey(providers[k].name)
  {
    var d := Merge(lists);
    var id := Candidates(lists)[i].id;
    assert id == d.keys[i];
    MergeKeys(lists, id);
    var k :| 0 <= k < |lists| && HasId(Top10(lists[k]), id);
    var first := FirstListing(lists, id);
    assert first.Some?;
    assert SourceOf(providers, lists, id) == SourceKey(providers[first.value].name);
  }

  lemma PutAllSnoc(d: Dict, ms: seq<Movie>, m: Movie)
    ensures PutAll(d, ms + [m]) == Put(PutAll(d, ms), m)
  {
    assert (ms + [m])[..|ms|] == ms;
  }

  lemma PutStep(done: seq<Movie>, top: seq<Movie>, j: nat)
    requires j < |top|
    ensures PutAll(Empty, done + top[..j + 1]) == Put(PutAll(Empty, done + top[..j]), top[j])
  {
    assert done + top[..j + 1] == (done + top[..j]) + [top[j]];
    PutAllSnoc(Empty, done + top[..j], top[j]);
  }

  lemma FlatSnoc(lists: seq<seq<Movie>>, p: nat)
    requires p < |lists|
    ensures Flat(lists[..p + 1]) == Flat(lists[..p]) + Top10(lists[p])
  {
    assert lists[..p + 1][..p] == lists[..p];
  }

  /** The provider loop: each provider's top-10 list is stored into the dict, entry by entry. */
  method MergeLists(lists: seq<seq<Movie>>) returns (d: Dict)
    ensures d == Merge(lists)
  {
    var keys: seq<int> := [];
    var values: map<int, Movie> := map[];
    for p := 0 to |lists|
      invariant Dict(keys, values) == PutAll(Empty, Flat(lists[..p]))
    {
      var top := Top10(lists[p]);
      ghost var done := Flat(lists[..p]);
      assert done + top[..0] == done;
      for j := 0 to |top|
        invariant Dict(keys, values) == PutAll(Empty, done + top[..j])
      {
        var m := top[j];
        PutStep(done, top, j);
        if m.id !in values {
          keys := keys + [m.id];
        }
        values := values[m.id := m];
      }
      assert top[..|top|] == top;
      FlatSnoc(lists, p);
    }
    assert lists[..|lists|] == lists;
    d := Dict(keys, values);
  }
}
