/**
 * The TMDb side of the bot: the per-provider popularity lists, their
 * top-10 cut, which provider a title is attributed to, and the tag label
 * built from that attribution and the calendar period.
 */
module Catalog {
  import opened Wrappers
  import opened Text

  /** One entry of a TMDb discover result: its TMDb id and its title. */
  datatype Movie = Movie(id: int, title: string)

  /** A configured streaming provider: its TMDb provider id and its display name. */
  datatype Provider = Provider(id: string, name: string)

  /** How many entries of each provider's list are kept. */
  const TopN: nat := 10

  /** The source used when no provider lists a title. */
  const Unattributed: string := "trending_week"

  /** `results[:10]`: the first ten entries, or all of them when there are fewer. */
  function Top10(results: seq<Movie>): (r: seq<Movie>)
    ensures |r| == if |results| < TopN then |results| else TopN
    ensures r == results[..|r|]
  {
    if |results| <= TopN then results else results[..TopN]
  }

  /** `id in [movie["id"] for movie in ms]`. */
  predicate HasId(ms: seq<Movie>, id: int)
  {
    exists i :: 0 <= i < |ms| && ms[i].id == id
  }

  /** The first provider, in configuration order, whose top-10 list holds id. */
  function FirstListing(lists: seq<seq<Movie>>, id: int): (r: Option<nat>)
    ensures r.Some? ==> r.value < |lists| && HasId(Top10(lists[r.value]), id)
    ensures r.Some? ==> forall k :: 0 <= k < r.value ==> !HasId(Top10(lists[k]), id)
    ensures r.None? ==> forall k :: 0 <= k < |lists| ==> !HasId(Top10(lists[k]), id)
  {
    if lists == [] then None
    else if HasId(Top10(lists[0]), id) then Some(0)
    else match FirstListing(lists[1..], id)
      case None => None
      case Some(k) => Some(k + 1)
  }

  /** `name.lower().replace(" ", "_")`: the provider's part of a tag label. */
  function SourceKey(name: string): (r: string)
    ensures |r| == |name|
    ensures forall i :: 0 <= i < |name| ==> r[i] == if name[i] == ' ' then '_' else LowerChar(name[i])
  {
    ReplaceChar(Lower(name), ' ', '_')
  }

  /** A source key has no blanks and no upper-case ASCII letter, so keying it again changes nothing. */
  lemma SourceKeyIsNormal(name: string)
    ensures forall i :: 0 <= i < |SourceKey(name)| ==> SourceKey(name)[i] != ' ' && !('A' <= SourceKey(name)[i] <= 'Z')
    ensures SourceKey(SourceKey(name)) == SourceKey(name)
  {
    var k := SourceKey(name);
    assert forall i :: 0 <= i < |k| ==> SourceKey(k)[i] == k[i];
  }

  /**
   * The source attributed to title `id`: the key of the first configured
   * provider whose top-10 list holds it; the unattributed source when none
   * does, and also when that provider's key is empty (an empty string is
   * falsy, so the fallback replaces it).
   */
  function SourceOf(providers: seq<Provider>, lists: seq<seq<Movie>>, id: int): string
    requires |lists| == |providers|
  {
    match FirstListing(lists, id)
    case None => Unattributed
    case Some(k) => if SourceKey(providers[k].name) != "" then SourceKey(providers[k].name) else Unattributed
  }

  /** The first listing provider with a non-empty name gives its key as the source. */
  lemma SourceIsFirstListingProvider(providers: seq<Provider>, lists: seq<seq<Movie>>, id: int, k: nat)
    requires |lists| == |providers|
    requires k < |lists| && HasId(Top10(lists[k]), id)
    requires forall j :: 0 <= j < k ==> !HasId(Top10(lists[j]), id)
    requires providers[k].name != ""
    ensures SourceOf(providers, lists, id) == SourceKey(providers[k].name)
  {
    var r := FirstListing(lists, id);
    assert r.Some?;
    assert r.value == k;
  }

  /** A title no provider lists is attributed to the unattributed source. */
  lemma SourceOfUnlisted(providers: seq<Provider>, lists: seq<seq<Movie>>, id: int)
    requires |lists| == |providers|
    requires forall k :: 0 <= k < |lists| ==> !HasId(Top10(lists[k]), id)
    ensures SourceOf(providers, lists, id) == Unattributed
  {
  }

  /** The search over providers that determines the source of one title. */
  method DeriveSource(providers: seq<Provider>, lists: seq<seq<Movie>>, id: int) returns (source: string)
    requires |lists| == |providers|
    ensures source == SourceOf(providers, lists, id)
  {
    source := "";
    for k := 0 to |providers|
      invariant source == ""
      invariant forall j :: 0 <= j < k ==> !HasId(Top10(lists[j]), id)
    {
      if HasId(Top10(lists[k]), id) {
        source := SourceKey(providers[k].name);
        assert FirstListing(lists, id) == Some(k);
        break;
      }
    }
    if source == "" {
      source := Unattributed;
    }
  }

  /** `f"{source}_kw{week}_{year}"`. */
  function Label(source: string, week: nat, year: nat): (r: string)
    ensures |r| > |source| + 3 && r[..|source|] == source && r[|source|..|source| + 3] == "_kw"
  {
    source + "_kw" + NatToString(week) + "_" + NatToString(year)
  }

  /**
   * Reads a label back from its right end: the year after the last `_`,
   * then `kw` and the week after the `_` before it, the source in front.
   */
  function SplitLabel(text: string): Option<(string, nat, nat)>
  {
    match LastIndexOf(text, '_')
    case None => None
    case Some(i) =>
      var head := text[..i];
      match LastIndexOf(head, '_')
      case None => None
      case Some(j) =>
        var period := head[j + 1..];
        if |period| >= 2 && period[..2] == "kw" then
          match (ParseNat(period[2..]), ParseNat(text[i + 1..]))
          case (Some(week), Some(year)) => Some((head[..j], week, year))
          case _ => None
        else None
  }

  lemma {:induction false} LastIndexOfBefore(a: string, c: char, b: string)
    requires forall k :: 0 <= k < |b| ==> b[k] != c
    ensures LastIndexOf(a + [c] + b, c) == Some(|a|)
  {
    var s := a + [c] + b;
    if b != [] {
      var b' := b[..|b| - 1];
      assert s[..|s| - 1] == a + [c] + b';
      LastIndexOfBefore(a, c, b');
    }
  }

  /** A label determines its source, week and year: SplitLabel undoes Label. */
  lemma {:induction false} SplitLabelInvertsLabel(source: string, week: nat, year: nat)
    ensures SplitLabel(Label(source, week, year)) == Some((source, week, year))
  {
    var w, y := NatToString(week), NatToString(year);
    var head := source + "_kw" + w;
    var text := Label(source, week, year);
    assert text == head + ['_'] + y;
    LastIndexOfBefore(head, '_', y);
    assert text[..|head|] == head;
    assert text[|head| + 1..] == y;
    assert head == source + ['_'] + ("kw" + w);
    LastIndexOfBefore(source, '_', "kw" + w);
    assert head[|source| + 1..] == "kw" + w;
    assert ("kw" + w)[..2] == "kw" && ("kw" + w)[2..] == w;
    assert head[..|source|] == source;
    ParseNatToString(week);
    ParseNatToString(year);
  }

  /** Labels of different sources or periods never coincide. */
  lemma LabelInjective(s1: string, w1: nat, y1: nat, s2: string, w2: nat, y2: nat)
    requires Label(s1, w1, y1) == Label(s2, w2, y2)
    ensures s1 == s2 && w1 == w2 && y1 == y2
  {
    SplitLabelInvertsLabel(s1, w1, y1);
    SplitLabelInvertsLabel(s2, w2, y2);
  }
}
