/**
 * The bot's `main`: resolve the quality profile, collect the excluded ids,
 * merge the providers' lists, then decide for each merged title whether to
 * skip it or to add it to Radarr with a source/period tag.
 */
module Sync {
  import opened Wrappers
  import opened Text
  import opened Catalog
  import opened Aggregate
  import opened Radarr

  /** The script's configuration constants. */
  datatype Config = Config(providers: seq<Provider>, profileName: string, monitored: bool, rootFolder: string)

  /** What became of one candidate title. */
  datatype Decision =
    | Excluded
    | AlreadyHeld
    | DetailsMissing
    | Submitted(labelText: string, tagIds: seq<int>, outcome: AddOutcome)

  /** A run either stops for want of a quality profile or decides every candidate. */
  datatype RunResult = Aborted | Completed(decisions: seq<Decision>)

  /** What the decision loop reads and never changes. */
  datatype Context = Context(cfg: Config, lists: seq<seq<Movie>>, excluded: set<int>, profileId: int, week: nat, year: nat)

  /** One fetched list per configured provider. */
  predicate Aligned(ctx: Context)
  {
    |ctx.lists| == |ctx.cfg.providers|
  }

  /** The truthy `tmdbId` values of the exclusion entries. */
  function ExcludedIds(entries: seq<ExclusionEntry>): (r: set<int>)
    ensures forall id :: id in r <==> id != 0 && exists i :: 0 <= i < |entries| && entries[i].tmdbId == Some(id)
  {
    set i | 0 <= i < |entries| && entries[i].tmdbId.Some? && entries[i].tmdbId.value != 0 :: entries[i].tmdbId.value
  }

  /** The loop filling `exclusion_tmdb_ids`: entries with a missing or zero id are dropped. */
  method CollectExclusions(entries: seq<ExclusionEntry>) returns (ids: set<int>)
    ensures forall id :: id in ids <==> id != 0 && exists i :: 0 <= i < |entries| && entries[i].tmdbId == Some(id)
    ensures ids == ExcludedIds(entries)
  {
    ids := {};
    for i := 0 to |entries|
      invariant forall id :: id in ids <==> id != 0 && exists j :: 0 <= j < i && entries[j].tmdbId == Some(id)
    {
      var tmdbId := entries[i].tmdbId;
      if tmdbId.Some? && tmdbId.value != 0 {
        ids := ids + {tmdbId.value};
      }
    }
    assert forall id :: id in ids ==> id in ExcludedIds(entries);
  }

  /** `[tag_id] if tag_id else []`: no tag for a missing or zero id. */
  function TagList(tagId: Option<int>): (r: seq<int>)
    ensures |r| <= 1
    ensures r != [] <==> tagId.Some? && tagId.value != 0
    ensures r != [] ==> r[0] == tagId.value
  {
    if tagId.Some? && tagId.value != 0 then [tagId.value] else []
  }

  /** The body of the decision loop for one candidate, each step cutting the rest short. */
  function Decide(svc: Service, ctx: Context, s: Store, m: Movie): (Decision, Store)
    requires Aligned(ctx)
  {
    if m.id in ctx.excluded then (Excluded, s)
    else
      var (held, s1) := HoldingReply(svc, s, m.id);
      if held then (AlreadyHeld, s1)
      else
        var (details, s2) := LookupReply(svc, s1, m.id);
        if details.None? then (DetailsMissing, s2)
        else
          var labelText := Label(SourceOf(ctx.cfg.providers, ctx.lists, m.id), ctx.week, ctx.year);
          var (tagId, s3) := TagReply(svc, s2, labelText);
          var payload := BuildPayload(details.value, ctx.profileId, TagList(tagId), ctx.cfg.monitored, ctx.cfg.rootFolder);
          var (outcome, s4) := AddReply(svc, s3, payload);
          (Submitted(labelText, TagList(tagId), outcome), s4)
  }

  /** The decision loop over the candidates, in order; no outcome stops it. */
  function ProcessAll(svc: Service, ctx: Context, s: Store, cands: seq<Movie>): (r: (seq<Decision>, Store))
    requires Aligned(ctx)
    ensures |r.0| == |cands|
  {
    if cands == [] then ([], s)
    else
      var (ds, s') := ProcessAll(svc, ctx, s, cands[..|cands| - 1]);
      var (d, s'') := Decide(svc, ctx, s', cands[|cands| - 1]);
      (ds + [d], s'')
  }

  /** A whole run of `main` against the server state s. */
  function RunSpec(svc: Service, cfg: Config, lists: seq<seq<Movie>>, week: nat, year: nat, s: Store): (RunResult, Store)
    requires |lists| == |cfg.providers|
  {
    var (profileId, s1) := ProfileReply(svc, s, cfg.profileName);
    if profileId.None? then (Aborted, s1)
    else
      var (entries, s2) := ExclusionReply(svc, s1);
      var ctx := Context(cfg, lists, ExcludedIds(entries), profileId.value, week, year);
      var (ds, s3) := ProcessAll(svc, ctx, s2, Candidates(lists));
      (Completed(ds), s3)
  }

  /** One pass of the decision loop. */
  method ProcessCandidate(radarr: Server, ctx: Context, m: Movie) returns (decision: Decision)
    requires Aligned(ctx)
    modifies radarr
    ensures (decision, radarr.State()) == Decide(radarr.svc, ctx, old(radarr.State()), m)
  {
    if m.id in ctx.excluded {
      return Excluded;
    }
    var held := radarr.IsHeld(m.id);
    if held {
      return AlreadyHeld;
    }
    var details := radarr.Lookup(m.id);
    if details.None? {
      return DetailsMissing;
    }
    var source := DeriveSource(ctx.cfg.providers, ctx.lists, m.id);
    var labelText := Label(source, ctx.week, ctx.year);
    var tagId := radarr.GetOrCreateTag(labelText);
    var tagIds := TagList(tagId);
    var outcome := radarr.AddMovie(details.value, ctx.profileId, tagIds, ctx.cfg.monitored, ctx.cfg.rootFolder);
    return Submitted(labelText, tagIds, outcome);
  }

  /** `main`, with the providers' fetched lists and the week and year given. */
  method Run(radarr: Server, cfg: Config, lists: seq<seq<Movie>>, week: nat, year: nat) returns (result: RunResult)
    requires |lists| == |cfg.providers|
    modifies radarr
    ensures (result, radarr.State()) == RunSpec(radarr.svc, cfg, lists, week, year, old(radarr.State()))
  {
    var profileId := radarr.QualityProfileId(cfg.profileName);
    if profileId.None? {
      return Aborted;
    }
    var entries := radarr.Exclusions();
    var excluded := CollectExclusions(entries);
    var merged := MergeLists(lists);
    var ctx := Context(cfg, lists, excluded, profileId.value, week, year);
    var candidates := Values(merged);
    ghost var start := radarr.State();
    var decisions: seq<Decision> := [];
    for i := 0 to |candidates|
      invariant (decisions, radarr.State()) == ProcessAll(radarr.svc, ctx, start, candidates[..i])
    {
      var decision := ProcessCandidate(radarr, ctx, candidates[i]);
      decisions := decisions + [decision];
      assert candidates[..i + 1][..i] == candidates[..i];
    }
    assert candidates[..|candidates|] == candidates;
    return Completed(decisions);
  }

  // ---------------------------------------------------------------------
  // The decision order

  /** An excluded id is skipped with no request at all, whatever the server holds. */
  lemma ExcludedIsSkippedUntouched(svc: Service, ctx: Context, s: Store, m: Movie)
    requires Aligned(ctx) && m.id in ctx.excluded
    ensures Decide(svc, ctx, s, m) == (Excluded, s)
  {
  }

  /** A held id is skipped after the holdings listing: no lookup, no tag, no add. */
  lemma HeldIsSkippedBeforeLookup(svc: Service, ctx: Context, s: Store, m: Movie)
    requires Aligned(ctx) && m.id !in ctx.excluded
    requires svc.moviesListed && m.id in s.movies
    ensures Decide(svc, ctx, s, m) == (AlreadyHeld, Log(s, GetMovies))
  {
  }

  /** When the holdings listing fails, no id counts as held and the lookup follows. */
  lemma FailedHoldingsListMeansNotHeld(svc: Service, ctx: Context, s: Store, m: Movie)
    requires Aligned(ctx) && m.id !in ctx.excluded && !svc.moviesListed
    ensures Decide(svc, ctx, s, m).0 != AlreadyHeld
    ensures Decide(svc, ctx, s, m).1.requests[|s.requests|..][..2] == [GetMovies, LookupMovie(m.id)]
  {
    var (d, s') := Decide(svc, ctx, s, m);
    var s2 := Log(Log(s, GetMovies), LookupMovie(m.id));
    assert s2.requests <= s'.requests by {
      if m.id in svc.lookup {
        var labelText := Label(SourceOf(ctx.cfg.providers, ctx.lists, m.id), ctx.week, ctx.year);
        var (tagId, s3) := TagReply(svc, s2, labelText);
        assert s2.requests <= s3.requests;
      }
    }
    assert s'.requests[|s.requests|..][..2] == s2.requests[|s.requests|..];
  }

  /** Without details, the candidate stops after the lookup: no tag is resolved, nothing is added. */
  lemma MissingDetailsStopBeforeTag(svc: Service, ctx: Context, s: Store, m: Movie)
    requires Aligned(ctx) && m.id !in ctx.excluded
    requires !(svc.moviesListed && m.id in s.movies) && m.id !in svc.lookup
    ensures Decide(svc, ctx, s, m) == (DetailsMissing, Log(Log(s, GetMovies), LookupMovie(m.id)))
  {
  }

  /**
   * A candidate that passes every check is posted with the label of its
   * source and period, with its tag when one resolved and with none
   * otherwise; the add is issued in both cases.
   */
  lemma SubmissionCarriesLabel(svc: Service, ctx: Context, s: Store, m: Movie)
    requires Aligned(ctx) && m.id !in ctx.excluded
    requires !(svc.moviesListed && m.id in s.movies) && m.id in svc.lookup
    ensures var (d, s') := Decide(svc, ctx, s, m);
            var labelText := Label(SourceOf(ctx.cfg.providers, ctx.lists, m.id), ctx.week, ctx.year);
            var tagId := TagReply(svc, Log(Log(s, GetMovies), LookupMovie(m.id)), labelText).0;
            && d.Submitted?
            && d.labelText == labelText
            && d.tagIds == (if tagId.Some? && tagId.value != 0 then [tagId.value] else [])
            && d.outcome == Classify(svc.addReply(svc.lookup[m.id].tmdbId))
            && |s'.requests| > 0
            && s'.requests[|s'.requests| - 1].PostMovie?
            && s'.requests[|s'.requests| - 1].payload.tags == d.tagIds
            && s'.requests[|s'.requests| - 1].payload.qualityProfileId == ctx.profileId
  {
  }

  /** The i-th decision of the loop is the decision for the i-th candidate on the state the loop had reached. */
  lemma {:induction false} ProcessAllAt(svc: Service, ctx: Context, s: Store, cands: seq<Movie>, i: nat)
    requires Aligned(ctx) && i < |cands|
    ensures ProcessAll(svc, ctx, s, cands).0[i] == Decide(svc, ctx, ProcessAll(svc, ctx, s, cands[..i]).1, cands[i]).0
  {
    var n := |cands| - 1;
    if i < n {
      ProcessAllAt(svc, ctx, s, cands[..n], i);
      assert cands[..n][..i] == cands[..i];
    } else {
      assert cands[..n] == cands[..i];
    }
  }

  lemma InPrefix(x: int, a: seq<int>, b: seq<int>)
    requires a <= b && x in a
    ensures x in b
  {
    var i :| 0 <= i < |a| && a[i] == x;
    assert b[i] == x;
  }

  /** One decision only ever adds to the movies held. */
  lemma DecideGrowsMovies(svc: Service, ctx: Context, s: Store, m: Movie)
    requires Aligned(ctx)
    ensures s.movies <= Decide(svc, ctx, s, m).1.movies
  {
  }

  /** The loop only ever adds to the movies held. */
  lemma {:induction false} ProcessAllGrowsMovies(svc: Service, ctx: Context, s: Store, cands: seq<Movie>)
    requires Aligned(ctx)
    ensures s.movies <= ProcessAll(svc, ctx, s, cands).1.movies
  {
    if cands != [] {
      var n := |cands| - 1;
      ProcessAllGrowsMovies(svc, ctx, s, cands[..n]);
      DecideGrowsMovies(svc, ctx, ProcessAll(svc, ctx, s, cands[..n]).1, cands[n]);
    }
  }

  /** One decision only ever adds to the tags. */
  lemma DecideGrowsTags(svc: Service, ctx: Context, s: Store, m: Movie)
    requires Aligned(ctx)
    ensures s.tags <= Decide(svc, ctx, s, m).1.tags
  {
  }

  /** The loop only ever adds to the tags. */
  lemma {:induction false} ProcessAllGrowsTags(svc: Service, ctx: Context, s: Store, cands: seq<Movie>)
    requires Aligned(ctx)
    ensures s.tags <= ProcessAll(svc, ctx, s, cands).1.tags
  {
    if cands != [] {
      var n := |cands| - 1;
      ProcessAllGrowsTags(svc, ctx, s, cands[..n]);
      DecideGrowsTags(svc, ctx, ProcessAll(svc, ctx, s, cands[..n]).1, cands[n]);
    }
  }

  // ---------------------------------------------------------------------
  // A label resolved once is reused, never created again

  /** A submission with a tag leaves the tags resolving its label to that tag. */
  lemma SubmittedTagResolves(svc: Service, ctx: Context, s: Store, m: Movie)
    requires Aligned(ctx)
    requires Decide(svc, ctx, s, m).0.Submitted? && Decide(svc, ctx, s, m).0.tagIds != []
    ensures var (d, s') := Decide(svc, ctx, s, m);
            |d.tagIds| == 1 && d.tagIds[0] != 0 && svc.tagsListed && Resolves(s'.tags, d.labelText, d.tagIds[0])
  {
    var s2 := Log(Log(s, GetMovies), LookupMovie(m.id));
    var labelText := Label(SourceOf(ctx.cfg.providers, ctx.lists, m.id), ctx.week, ctx.year);
    TagReplyResolves(svc, s2, labelText);
  }

  /**
   * Once a label resolves to a tag, a decision keeps it so, posts no tag
   * with that label, and submits a title with that label under that tag.
   */
  lemma DecideKeepsResolution(svc: Service, ctx: Context, t: Store, m: Movie, text: string, id: int, from: nat)
    requires Aligned(ctx) && svc.tagsListed && id != 0 && Resolves(t.tags, text, id)
    requires from <= |t.requests| && NoTagPostAfter(t.requests, from, text)
    ensures var (d, t') := Decide(svc, ctx, t, m);
            && Resolves(t'.tags, text, id)
            && t.requests <= t'.requests
            && NoTagPostAfter(t'.requests, from, text)
            && (d.Submitted? && d.labelText == text ==> d.tagIds == [id])
  {
    if m.id !in ctx.excluded {
      var s1 := Log(t, GetMovies);
      LogKeepsNoTagPost(t, GetMovies, from, text);
      if !(svc.moviesListed && m.id in t.movies) {
        var s2 := Log(s1, LookupMovie(m.id));
        LogKeepsNoTagPost(s1, LookupMovie(m.id), from, text);
        if m.id in svc.lookup {
          var labelText := Label(SourceOf(ctx.cfg.providers, ctx.lists, m.id), ctx.week, ctx.year);
          TagReplyKeepsResolution(svc, s2, labelText, text, id, from);
          var (tagId, s3) := TagReply(svc, s2, labelText);
          var payload := BuildPayload(svc.lookup[m.id], ctx.profileId, TagList(tagId), ctx.cfg.monitored, ctx.cfg.rootFolder);
          LogKeepsNoTagPost(s3, PostMovie(payload), from, text);
        }
      }
    }
  }

  /** The loop over a list is the loop over its first k candidates, continued over the rest. */
  lemma {:induction false} ProcessAllSplit(svc: Service, ctx: Context, s: Store, cands: seq<Movie>, k: nat)
    requires Aligned(ctx) && k <= |cands|
    ensures ProcessAll(svc, ctx, s, cands).0
            == ProcessAll(svc, ctx, s, cands[..k]).0 + ProcessAll(svc, ctx, ProcessAll(svc, ctx, s, cands[..k]).1, cands[k..]).0
    ensures ProcessAll(svc, ctx, s, cands).1 == ProcessAll(svc, ctx, ProcessAll(svc, ctx, s, cands[..k]).1, cands[k..]).1
  {
    var mid := ProcessAll(svc, ctx, s, cands[..k]).1;
    if |cands| == k {
      assert cands[..k] == cands;
      assert cands[k..] == [];
    } else {
      var n := |cands| - 1;
      var rest := cands[k..];
      ProcessAllSplit(svc, ctx, s, cands[..n], k);
      assert cands[..n][..k] == cands[..k];
      assert cands[..n][k..] == rest[..|rest| - 1];
      assert rest[|rest| - 1] == cands[n];
      var front := ProcessAll(svc, ctx, s, cands[..k]).0;
      var back := ProcessAll(svc, ctx, mid, rest[..|rest| - 1]);
      assert ProcessAll(svc, ctx, s, cands[..n]) == (front + back.0, back.1);
      var (d, t) := Decide(svc, ctx, back.1, cands[n]);
      assert ProcessAll(svc, ctx, mid, rest) == (back.0 + [d], t);
      assert ProcessAll(svc, ctx, s, cands) == (front + back.0 + [d], t);
      assert front + back.0 + [d] == front + (back.0 + [d]);
    }
  }

  /** From a store where `text` resolves to `id`, the whole rest of the loop keeps it so. */
  ghost predicate KeptResolved(r: (seq<Decision>, Store), from: nat, text: string, id: int)
  {
    && Resolves(r.1.tags, text, id)
    && NoTagPostAfter(r.1.requests, from, text)
    && forall j :: 0 <= j < |r.0| && r.0[j].Submitted? && r.0[j].labelText == text ==> r.0[j].tagIds == [id]
  }

  lemma KeptResolvedStep(ds: seq<Decision>, t: Store, d: Decision, t': Store, from: nat, text: string, id: int)
    requires KeptResolved((ds, t), from, text, id)
    requires Resolves(t'.tags, text, id) && NoTagPostAfter(t'.requests, from, text)
    requires d.Submitted? && d.labelText == text ==> d.tagIds == [id]
    ensures KeptResolved((ds + [d], t'), from, text, id)
  {
    assert forall j :: 0 <= j < |ds| ==> (ds + [d])[j] == ds[j];
  }

  /** Once a label resolves to a tag, the rest of the loop never posts it and submits it only with that tag. */
  lemma {:induction false} ResolutionPersists(svc: Service, ctx: Context, t0: Store, rest: seq<Movie>, text: string, id: int)
    requires Aligned(ctx) && svc.tagsListed && id != 0 && Resolves(t0.tags, text, id)
    ensures t0.requests <= ProcessAll(svc, ctx, t0, rest).1.requests
    ensures KeptResolved(ProcessAll(svc, ctx, t0, rest), |t0.requests|, text, id)
  {
    if rest != [] {
      var n := |rest| - 1;
      ResolutionPersists(svc, ctx, t0, rest[..n], text, id);
      var (ds, t) := ProcessAll(svc, ctx, t0, rest[..n]);
      DecideKeepsResolution(svc, ctx, t, rest[n], text, id, |t0.requests|);
      var (d, t') := Decide(svc, ctx, t, rest[n]);
      KeptResolvedStep(ds, t, d, t', |t0.requests|, text, id);
    }
  }

  /** Deciding one more candidate extends the loop's result by that decision. */
  lemma ProcessAllStep(svc: Service, ctx: Context, s: Store, cands: seq<Movie>, i: nat)
    requires Aligned(ctx) && i < |cands|
    ensures var r := ProcessAll(svc, ctx, s, cands[..i]);
            ProcessAll(svc, ctx, s, cands[..i + 1]) == (r.0 + [Decide(svc, ctx, r.1, cands[i]).0], Decide(svc, ctx, r.1, cands[i]).1)
  {
    assert cands[..i + 1][..i] == cands[..i];
  }

  /**
   * When the i-th candidate is submitted with a tag, every later candidate
   * submitted under the same label carries the same tag, and no later
   * request posts a tag with that label: a label is created at most once
   * per run.
   */
  lemma LabelResolvedOnce(svc: Service, ctx: Context, s: Store, cands: seq<Movie>, i: nat)
    requires Aligned(ctx) && i < |cands|
    requires ProcessAll(svc, ctx, s, cands).0[i].Submitted? && ProcessAll(svc, ctx, s, cands).0[i].tagIds != []
    ensures var ds := ProcessAll(svc, ctx, s, cands).0;
            forall j :: i < j < |cands| && ds[j].Submitted? && ds[j].labelText == ds[i].labelText ==> ds[j].tagIds == ds[i].tagIds
    ensures NoTagPostAfter(ProcessAll(svc, ctx, s, cands).1.requests, |ProcessAll(svc, ctx, s, cands[..i + 1]).1.requests|,
                           ProcessAll(svc, ctx, s, cands).0[i].labelText)
  {
    var prior := ProcessAll(svc, ctx, s, cands[..i]);
    var (d, after) := Decide(svc, ctx, prior.1, cands[i]);
    ProcessAllStep(svc, ctx, s, cands, i);
    assert ProcessAll(svc, ctx, s, cands[..i + 1]) == (prior.0 + [d], after);
    ProcessAllSplit(svc, ctx, s, cands, i + 1);
    var (back, t) := ProcessAll(svc, ctx, after, cands[i + 1..]);
    var ds := prior.0 + [d] + back;
    assert ProcessAll(svc, ctx, s, cands) == (ds, t);
    SubmittedTagResolves(svc, ctx, prior.1, cands[i]);
    assert d.tagIds == [d.tagIds[0]];
    ResolutionPersists(svc, ctx, after, cands[i + 1..], d.labelText, d.tagIds[0]);
    LaterSubmissionsReuse(prior.0, d, back, t, |after.requests|, d.labelText, d.tagIds[0]);
  }

  /** Decisions after a submission under `text` with `[id]` that keep `text` resolved reuse `[id]`. */
  lemma LaterSubmissionsReuse(prior: seq<Decision>, d: Decision, back: seq<Decision>, t: Store, from: nat, text: string, id: int)
    requires d.Submitted? && d.labelText == text && d.tagIds == [id]
    requires KeptResolved((back, t), from, text, id)
    ensures var ds := prior + [d] + back;
            && ds[|prior|] == d
            && forall j :: |prior| < j < |ds| && ds[j].Submitted? && ds[j].labelText == text ==> ds[j].tagIds == [id]
  {
    var ds := prior + [d] + back;
    assert forall j :: |prior| < j < |ds| ==> ds[j] == back[j - |prior| - 1];
  }

  /** In a completed run, every excluded candidate is decided `Excluded`. */
  lemma ExcludedCandidatesAreSkipped(svc: Service, cfg: Config, lists: seq<seq<Movie>>, week: nat, year: nat, s: Store, i: nat)
    requires |lists| == |cfg.providers|
    requires svc.exclusions.Some? && i < |Candidates(lists)|
    requires Candidates(lists)[i].id in ExcludedIds(svc.exclusions.value)
    requires RunSpec(svc, cfg, lists, week, year, s).0.Completed?
    ensures RunSpec(svc, cfg, lists, week, year, s).0.decisions[i] == Excluded
  {
    var (profileId, s1) := ProfileReply(svc, s, cfg.profileName);
    var (entries, s2) := ExclusionReply(svc, s1);
    var ctx := Context(cfg, lists, ExcludedIds(entries), profileId.value, week, year);
    ProcessAllAt(svc, ctx, s2, Candidates(lists), i);
  }

  /**
   * In a completed run where the holdings listing works, every candidate
   * already held when the run starts and not excluded is decided
   * `AlreadyHeld`, so it is never looked up or added.
   */
  lemma HeldCandidatesAreSkipped(svc: Service, cfg: Config, lists: seq<seq<Movie>>, week: nat, year: nat, s: Store, i: nat)
    requires |lists| == |cfg.providers|
    requires svc.moviesListed && i < |Candidates(lists)|
    requires Candidates(lists)[i].id in s.movies
    requires svc.exclusions.Some? ==> Candidates(lists)[i].id !in ExcludedIds(svc.exclusions.value)
    requires RunSpec(svc, cfg, lists, week, year, s).0.Completed?
    ensures RunSpec(svc, cfg, lists, week, year, s).0.decisions[i] == AlreadyHeld
  {
    var cands := Candidates(lists);
    var (profileId, s1) := ProfileReply(svc, s, cfg.profileName);
    var (entries, s2) := ExclusionReply(svc, s1);
    var ctx := Context(cfg, lists, ExcludedIds(entries), profileId.value, week, year);
    ProcessAllAt(svc, ctx, s2, cands, i);
    var reached := ProcessAll(svc, ctx, s2, cands[..i]).1;
    ProcessAllGrowsMovies(svc, ctx, s2, cands[..i]);
    InPrefix(cands[i].id, s2.movies, reached.movies);
  }

  /** A run stops right after the profile listing when no profile matches; nothing else happens. */
  lemma AbortLeavesLibraryAlone(svc: Service, cfg: Config, lists: seq<seq<Movie>>, week: nat, year: nat, s: Store)
    requires |lists| == |cfg.providers|
    ensures RunSpec(svc, cfg, lists, week, year, s).0 == Aborted <==> ProfileReply(svc, s, cfg.profileName).0.None?
    ensures RunSpec(svc, cfg, lists, week, year, s).0 == Aborted ==> RunSpec(svc, cfg, lists, week, year, s).1 == Log(s, GetProfiles)
  {
  }

  // ---------------------------------------------------------------------
  // Excluded ids are never sent to the server

  /** The lookup answers the id it was asked for. */
  ghost predicate LookupConsistent(svc: Service)
  {
    forall id :: id in svc.lookup ==> svc.lookup[id].tmdbId == id
  }

  /** A lookup or an add request about one of the ids. */
  predicate Touches(r: Request, ids: set<int>)
  {
    (r.LookupMovie? && r.tmdbId in ids) || (r.PostMovie? && r.payload.tmdbId in ids)
  }

  /** The requests sent after position `from` name no id of `ids` in a lookup or an add. */
  ghost predicate SpareAfter(requests: seq<Request>, from: nat, ids: set<int>)
  {
    forall k :: from <= k < |requests| ==> !Touches(requests[k], ids)
  }

  /** Logging a request that names no id of `ids` keeps the log clear of them. */
  lemma LogSpares(s: Store, r: Request, from: nat, ids: set<int>)
    requires from <= |s.requests| && SpareAfter(s.requests, from, ids) && !Touches(r, ids)
    ensures s.requests <= Log(s, r).requests && SpareAfter(Log(s, r).requests, from, ids)
  {
  }

  /** Tag resolution only lists and posts tags. */
  lemma TagReplySpares(svc: Service, s: Store, text: string, from: nat, ids: set<int>)
    requires from <= |s.requests| && SpareAfter(s.requests, from, ids)
    ensures s.requests <= TagReply(svc, s, text).1.requests
    ensures SpareAfter(TagReply(svc, s, text).1.requests, from, ids)
  {
    var listed := Log(s, GetTags);
    LogSpares(s, GetTags, from, ids);
    LogSpares(listed, PostTag(text), from, ids);
  }

  lemma DecideSparesExcluded(svc: Service, ctx: Context, s: Store, m: Movie)
    requires Aligned(ctx) && LookupConsistent(svc)
    ensures s.requests <= Decide(svc, ctx, s, m).1.requests
    ensures SpareAfter(Decide(svc, ctx, s, m).1.requests, |s.requests|, ctx.excluded)
  {
    if m.id !in ctx.excluded {
      var from := |s.requests|;
      var s1 := Log(s, GetMovies);
      LogSpares(s, GetMovies, from, ctx.excluded);
      if !(svc.moviesListed && m.id in s.movies) {
        var s2 := Log(s1, LookupMovie(m.id));
        LogSpares(s1, LookupMovie(m.id), from, ctx.excluded);
        if m.id in svc.lookup {
          var details := svc.lookup[m.id];
          var labelText := Label(SourceOf(ctx.cfg.providers, ctx.lists, m.id), ctx.week, ctx.year);
          TagReplySpares(svc, s2, labelText, from, ctx.excluded);
          var s3 := TagReply(svc, s2, labelText).1;
          var payload := BuildPayload(details, ctx.profileId, TagList(TagReply(svc, s2, labelText).0), ctx.cfg.monitored, ctx.cfg.rootFolder);
          LogSpares(s3, PostMovie(payload), from, ctx.excluded);
        }
      }
    }
  }

  /**
   * Over the whole decision loop, no lookup and no add request ever names
   * an excluded id, whatever the server holds.
   */
  lemma {:induction false} ExcludedIdsNeverSent(svc: Service, ctx: Context, s: Store, cands: seq<Movie>)
    requires Aligned(ctx) && LookupConsistent(svc)
    ensures s.requests <= ProcessAll(svc, ctx, s, cands).1.requests
    ensures SpareAfter(ProcessAll(svc, ctx, s, cands).1.requests, |s.requests|, ctx.excluded)
  {
    if cands != [] {
      var n := |cands| - 1;
      ExcludedIdsNeverSent(svc, ctx, s, cands[..n]);
      var mid := ProcessAll(svc, ctx, s, cands[..n]).1;
      DecideSparesExcluded(svc, ctx, mid, cands[n]);
      var last := Decide(svc, ctx, mid, cands[n]).1;
      assert forall k :: |s.requests| <= k < |mid.requests| ==> last.requests[k] == mid.requests[k];
    }
  }

  // ---------------------------------------------------------------------
  // A second run adds nothing

  /** No decision reads an add answer as "added". */
  predicate NoneAdded(ds: seq<Decision>)
  {
    forall i :: 0 <= i < |ds| ==> !(ds[i].Submitted? && ds[i].outcome == Added)
  }

  /** A candidate a further run could add no more: excluded, without details, refused, or held. */
  predicate Settled(svc: Service, ctx: Context, s: Store, m: Movie)
  {
    m.id in ctx.excluded || m.id !in svc.lookup || svc.addReply(m.id).status != Created || m.id in s.movies
  }

  lemma DecideSettles(svc: Service, ctx: Context, s: Store, m: Movie)
    requires Aligned(ctx) && LookupConsistent(svc)
    ensures Settled(svc, ctx, Decide(svc, ctx, s, m).1, m)
  {
    if m.id !in ctx.excluded && svc.moviesListed && m.id in s.movies {
      InPrefix(m.id, s.movies, Decide(svc, ctx, s, m).1.movies);
    }
  }

  /** After the loop, every candidate is settled. */
  lemma {:induction false} ProcessAllSettles(svc: Service, ctx: Context, s: Store, cands: seq<Movie>)
    requires Aligned(ctx) && LookupConsistent(svc)
    ensures forall i :: 0 <= i < |cands| ==> Settled(svc, ctx, ProcessAll(svc, ctx, s, cands).1, cands[i])
  {
    if cands != [] {
      var n := |cands| - 1;
      ProcessAllSettles(svc, ctx, s, cands[..n]);
      var mid := ProcessAll(svc, ctx, s, cands[..n]).1;
      var last := Decide(svc, ctx, mid, cands[n]).1;
      DecideSettles(svc, ctx, mid, cands[n]);
      DecideGrowsMovies(svc, ctx, mid, cands[n]);
      forall i | 0 <= i < n
        ensures Settled(svc, ctx, last, cands[i])
      {
        assert cands[..n][i] == cands[i];
        if cands[i].id in mid.movies {
          InPrefix(cands[i].id, mid.movies, last.movies);
        }
      }
    }
  }

  lemma DecideQuiet(svc: Service, ctx: Context, s: Store, m: Movie)
    requires Aligned(ctx) && LookupConsistent(svc) && svc.moviesListed
    requires Settled(svc, ctx, s, m)
    ensures Decide(svc, ctx, s, m).1.movies == s.movies
    ensures !(Decide(svc, ctx, s, m).0.Submitted? && Decide(svc, ctx, s, m).0.outcome == Added)
  {
  }

  /** On settled candidates, with a working holdings listing, the loop adds nothing. */
  lemma {:induction false} ProcessAllQuiet(svc: Service, ctx: Context, s: Store, cands: seq<Movie>)
    requires Aligned(ctx) && LookupConsistent(svc) && svc.moviesListed
    requires forall i :: 0 <= i < |cands| ==> Settled(svc, ctx, s, cands[i])
    ensures ProcessAll(svc, ctx, s, cands).1.movies == s.movies
    ensures NoneAdded(ProcessAll(svc, ctx, s, cands).0)
  {
    if cands != [] {
      var n := |cands| - 1;
      assert forall i :: 0 <= i < n ==> cands[..n][i] == cands[i];
      ProcessAllQuiet(svc, ctx, s, cands[..n]);
      var mid := ProcessAll(svc, ctx, s, cands[..n]).1;
      assert Settled(svc, ctx, mid, cands[n]);
      DecideQuiet(svc, ctx, mid, cands[n]);
    }
  }

  /**
   * Running the sync a second time, against the server as the first run
   * left it, adds nothing: every title the first run added is now held.
   * This needs a working holdings listing (a failed listing reads as "not
   * held") and a lookup that answers the id it was asked for (the add posts
   * the id of the lookup's answer).
   */
  lemma SecondRunAddsNothing(svc: Service, cfg: Config, lists: seq<seq<Movie>>, week: nat, year: nat, s: Store)
    requires |lists| == |cfg.providers|
    requires svc.moviesListed && LookupConsistent(svc)
    ensures var first := RunSpec(svc, cfg, lists, week, year, s).1;
            var second := RunSpec(svc, cfg, lists, week, year, first);
            && second.1.movies == first.movies
            && (second.0.Completed? ==> NoneAdded(second.0.decisions))
  {
    var cands := Candidates(lists);
    var (profileId, s1) := ProfileReply(svc, s, cfg.profileName);
    if profileId.Some? {
      var (entries, s2) := ExclusionReply(svc, s1);
      var ctx := Context(cfg, lists, ExcludedIds(entries), profileId.value, week, year);
      ProcessAllSettles(svc, ctx, s2, cands);
      var first := RunSpec(svc, cfg, lists, week, year, s).1;
      var t2 := ExclusionReply(svc, ProfileReply(svc, first, cfg.profileName).1).1;
      assert t2.movies == first.movies;
      assert forall i :: 0 <= i < |cands| ==> Settled(svc, ctx, t2, cands[i]);
      ProcessAllQuiet(svc, ctx, t2, cands);
    }
  }
}
