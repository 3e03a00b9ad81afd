# Radarr top-movies bot: a Dafny model of the sync core

`radarr-top-movies-bot.py` runs whenever it is invoked. It takes the ten
most popular movies of each configured streaming provider from TMDb and
merges them by TMDb id. For each merged title it then decides, against a
Radarr server, whether to skip the title or to add it. A title is skipped
when it is on Radarr's exclusion list, when Radarr already holds it, or when
Radarr's lookup yields no details. Otherwise it is added with a tag of the
form `<source>_kw<week>_<year>`, where the week is the ISO week of the day
the script runs. The source is the first configured provider that lists the
title.

The model has six modules, one file each:

- `wrappers.dfy`: `Option`, which stands for Python's `None`.
- `text.dfy`: three Python string operations.
  - `str.lower()`, ASCII only.
  - `in` on strings, with a lemma tying it to "occurs at some offset".
  - `f"{n}"` for naturals, with its inverse and the round trip.
- `catalog.dfy`: the TMDb side.
  - Movies and providers, and the `results[:10]` cut.
  - The search for the first provider that lists a title, as a function and as the source loop at lines 199-206.
  - The label text, with a parser that reads a label back. A proof shows the label determines its source, week and year.
- `aggregate.dfy`: the merge into `all_movies_dict` with Python dict semantics.
  - A key keeps the position of its first insertion.
  - The record stored under a key is the one written last.
  - The merge is a function `Merge` plus the nested loop `MergeLists` proved equal to it.
- `radarr.dfy`: the Radarr server as a class `Server`.
  - How each endpoint answers during a run is a `Service` value.
  - The fields the bot changes are the movies held, the tags, the next tag id, and a log of the requests sent.
  - Each endpoint function of the script is a method of `Server`, specified by a function over `Store` values (`ProfileReply`, `TagReply`, `AddReply`, …).
- `sync.dfy`: `main`.
  - It collects the excluded ids and decides each candidate (`Decide`, `ProcessCandidate`).
  - It runs the whole sync (`RunSpec`, `Run`).
  - The lemmas cover decision precedence, excluded and held titles, abort on a missing profile, and idempotence of a second run.

Inputs the script reads from outside are parameters of the model:

- The providers' TMDb result lists. A failed fetch is an empty list.
- The ISO week and the calendar year.
- The configuration constants: providers, profile name, monitored flag and root folder.
- Radarr's answers, given as a `Service` value.

The script fetches the provider lists a second time inside the decision loop
(lines 200-201). The model reuses the same snapshot for both.

Some behaviour of the script worth knowing when reading the model:

- The merge keeps no rank and no set of origin providers. It stores the last record seen for an id.
- The year in the label is the calendar year (line 99), not the ISO week-year. In the last days of December that fall into ISO week 1, the label therefore carries the old year.
- Labels are not cached. Each candidate lists the tags again. `Sync.LabelResolvedOnce` shows that within a run, once a label has resolved to a tag, no later request creates the label again, and every later title submitted under that label carries the same tag as long as the tag listing keeps working. The model fixes whether the listing works for the whole run. In the script a later failed listing gives no tag (line 144), and that title is then posted with an empty tag list (line 209).
- Holdings are listed again for every candidate.

## Model

| member | source | states |
|---|---|---|
| Catalog.Top10 | radarr-top-movies-bot.py:71-73 | a provider contributes the first min(10, n) entries of its list, in their order |
| Catalog.FirstListing | radarr-top-movies-bot.py:200-204 | the index of the first provider, in configuration order, whose top-10 list holds the id; no earlier provider holds it; none when no provider does |
| Catalog.SourceKey | radarr-top-movies-bot.py:203 | `name.lower().replace(" ", "_")`: same length, each blank becomes `_` and every other character is lower-cased in place |
| Catalog.SourceKeyIsNormal | radarr-top-movies-bot.py:203 | the provider key `name.lower().replace(" ", "_")` has no blank and no upper-case letter, so normalising it again changes nothing |
| Catalog.SourceIsFirstListingProvider | radarr-top-movies-bot.py:199-206 | the source of a title is the key of the first provider whose top-10 list holds it (when that provider's name is not empty) |
| Catalog.SourceOfUnlisted | radarr-top-movies-bot.py:205-206 | a title no provider lists gets the source `trending_week` |
| Catalog.DeriveSource | radarr-top-movies-bot.py:199-206 | the provider loop with `break` and the fallback computes exactly `SourceOf` |
| Catalog.Label | radarr-top-movies-bot.py:207 | `f"{source}_kw{week}_{year}"` starts with the source followed by `_kw`; its partner `SplitLabel` reads the whole label back (next two rows) |
| Catalog.SplitLabelInvertsLabel | radarr-top-movies-bot.py:207 | the label `{source}_kw{week}_{year}` can be read back into its source, week and year |
| Catalog.LabelInjective | radarr-top-movies-bot.py:207 | two labels are equal only for the same source, week and year |
| Text.Lower | radarr-top-movies-bot.py:48 | `str.lower()` keeps the length and lower-cases each ASCII letter in place, leaving every other character alone |
| Text.Contains | radarr-top-movies-bot.py:126 | `t in s`: holds whenever t is a prefix of s, and only when t is no longer than s; the full characterisation is `Text.ContainsIffOccurs` |
| Text.ContainsIffOccurs | radarr-top-movies-bot.py:126 | Python's `t in s` on strings holds exactly when t occurs in s at some offset |
| Text.NatToString | radarr-top-movies-bot.py:207 | the f-string rendering of a week or year is a non-empty run of decimal digits with no leading zero (only 0 itself starts with `0`), so it is the one canonical text; `Text.ParseNatToString` reads it back |
| Text.ParseNatToString | radarr-top-movies-bot.py:207 | the decimal text of a number in the label reads back as that number |
| Aggregate.PutAllValid | radarr-top-movies-bot.py:174-178 | after storing any sequence of records, each TMDb id is a key exactly once and every record is stored under its own id |
| Aggregate.MergeLists | radarr-top-movies-bot.py:174-178 | the nested provider/movie loop builds exactly the dict `Merge` describes |
| Aggregate.MergeKeys | radarr-top-movies-bot.py:174-178 | an id is a key of the merged dict exactly when some provider's top-10 list holds it |
| Aggregate.MergeKeepsLastProvider | radarr-top-movies-bot.py:174-178 | the record stored for an id is the last entry with that id in the top-10 list of the last provider (configuration order) that lists it |
| Aggregate.MergeFirstInsertionOrder | radarr-top-movies-bot.py:174-179 | keys, and so the candidates, stand in the order of their first appearance across the providers' lists |
| Aggregate.CandidateHasProviderSource | radarr-top-movies-bot.py:199-206 | with the same provider snapshot, every merged candidate is attributed to a configured provider that lists it, never to the fallback (provider names non-empty) |
| Radarr.FirstProfile | radarr-top-movies-bot.py:47-49 | the index of the first profile whose lower-cased name contains the lower-cased configured name; none matches before it; none when no profile matches |
| Radarr.ProfileMatchIsCaselessSubstring | radarr-top-movies-bot.py:48 | a profile matches exactly when the configured name occurs in its name, ignoring ASCII case |
| Radarr.Server.QualityProfileId | radarr-top-movies-bot.py:41-53 | the search loop returns the first matching profile's id, and none when the listing fails or nothing matches |
| Radarr.Server.Exclusions | radarr-top-movies-bot.py:146-158 | the exclusion entries, or none when the listing fails |
| Radarr.Server.IsHeld | radarr-top-movies-bot.py:78-86 | held exactly when the listing succeeds and holds the id; a failed listing reads as not held |
| Radarr.Server.Lookup | radarr-top-movies-bot.py:88-94 | the lookup's details, or none for a failed or empty answer |
| Radarr.FirstTag | radarr-top-movies-bot.py:137-139 | the index of the first tag whose label equals the text exactly; none before it matches; none when no tag matches |
| Radarr.TagReply | radarr-top-movies-bot.py:131-144 | tag resolution never changes the movies; an id is only ever returned when the tag listing worked; a failure leaves the tags and the id counter alone; with a failed listing it only logs the listing |
| Radarr.TagReplyResolves | radarr-top-movies-bot.py:137-143 | when resolution yields an id, the tags it leaves have that id as the first tag with the text |
| Radarr.TagReplyKeepsResolution | radarr-top-movies-bot.py:131-144 | while the tag listing works and a text resolves to an id, resolving any text keeps it so and posts no tag with that text; resolving the text itself gives the id |
| Radarr.Server.GetOrCreateTag | radarr-top-movies-bot.py:131-144 | the search loop returns the first exact match; else it posts a new tag only when the listing succeeded; any failure gives no tag |
| Radarr.TagReplyCreatesOnlyWhenMissing | radarr-top-movies-bot.py:135-144 | tag resolution leaves the tags alone, or appends exactly one tag, and only when the listing worked and no tag had the label; a tag is posted only then |
| Radarr.TagReplyCreatesWhenMissing | radarr-top-movies-bot.py:134-144 | with a working tag listing and no tag carrying the label, the listing is followed by a post of the label; a 201 answer returns the new tag's id and appends that tag, any other answer gives no tag |
| Radarr.TagReplyIsStable | radarr-top-movies-bot.py:137-143 | once a label resolved to a tag, resolving it again later, while the tag listing works (the model fixes this for the whole run) and on a server whose tags only grew since, returns the same id and posts nothing |
| Radarr.Classify | radarr-top-movies-bot.py:124-129 | "added" exactly for status 201; "already present" exactly for status 400 with "already exists" in the body; every other answer is an error carrying the body |
| Radarr.BuildPayload | radarr-top-movies-bot.py:104-115 | title, slug, images, TMDb id and year come from the lookup details; profile, tags, monitored flag and root folder from the arguments; search on add is on |
| Radarr.Server.AddMovie | radarr-top-movies-bot.py:102-129 | posts the payload built from the details, profile, tags, monitored flag and root folder, with search on; the outcome is the classified answer |
| Sync.ExcludedIds | radarr-top-movies-bot.py:168-172 | an id is excluded exactly when it is non-zero and some entry carries it as `tmdbId` |
| Sync.CollectExclusions | radarr-top-movies-bot.py:167-172 | the excluded set holds exactly the non-zero `tmdbId` values of the entries; entries with a missing or zero id are dropped |
| Sync.ExcludedIsSkippedUntouched | radarr-top-movies-bot.py:189-191 | an excluded id is skipped with no request at all, whatever Radarr holds |
| Sync.HeldIsSkippedBeforeLookup | radarr-top-movies-bot.py:192-194 | a held id is skipped after the holdings listing, with no lookup, no tag and no add |
| Sync.FailedHoldingsListMeansNotHeld | radarr-top-movies-bot.py:83-86 | when the holdings listing fails, nothing counts as held and the lookup follows |
| Sync.MissingDetailsStopBeforeTag | radarr-top-movies-bot.py:196-212 | without details, processing ends after the lookup: no tag is resolved and no add is issued |
| Sync.TagList | radarr-top-movies-bot.py:209 | `[tag_id] if tag_id else []`: at most one id; empty exactly when no tag or tag id 0 came back; otherwise that id |
| Sync.SubmissionCarriesLabel | radarr-top-movies-bot.py:207-210 | a candidate that passes every check is posted with its source/period label's tag, or with no tag when resolution failed; the outcome is the classified answer |
| Sync.ProcessCandidate | radarr-top-movies-bot.py:184-213 | one pass of the loop body does exactly what `Decide` says, in its order |
| Sync.ProcessAll | radarr-top-movies-bot.py:184-213 | the loop decides every candidate: one decision per candidate, no outcome stops it |
| Sync.ProcessAllAt | radarr-top-movies-bot.py:184-213 | the i-th decision is the decision for the i-th candidate on the state the loop had reached |
| Sync.Run | radarr-top-movies-bot.py:160-215 | `main` does exactly what `RunSpec` says |
| Sync.AbortLeavesLibraryAlone | radarr-top-movies-bot.py:162-165 | the run aborts exactly when no profile is resolved, and then sends nothing after the profile listing |
| Sync.ExcludedCandidatesAreSkipped | radarr-top-movies-bot.py:188-191 | in a completed run, every excluded candidate is decided `Excluded` |
| Sync.HeldCandidatesAreSkipped | radarr-top-movies-bot.py:192-194 | in a completed run with a working holdings listing, every non-excluded candidate held at the start is decided `AlreadyHeld` |
| Sync.ExcludedIdsNeverSent | radarr-top-movies-bot.py:188-191 | over the whole loop, no lookup and no add request names an excluded id, provided the lookup answers the id it was asked for (the add posts the lookup's `tmdbId`, line 109) |
| Sync.ProcessAllGrowsTags | radarr-top-movies-bot.py:184-213 | the loop never removes or reorders tags; it only appends |
| Sync.DecideKeepsResolution | radarr-top-movies-bot.py:196-210 | while the tag listing works and a label resolves to a tag with a non-zero id, deciding any candidate keeps it so, posts no tag with that label, and submits a title under that label with exactly that tag |
| Sync.LabelResolvedOnce | radarr-top-movies-bot.py:184-213 | after the i-th title is submitted with a tag, no later request posts that label, and, while the tag listing works (the model fixes this for the whole run), every later title submitted under the same label carries the same tag |
| Sync.SecondRunAddsNothing | radarr-top-movies-bot.py:184-213 | a second run against the server as the first left it, with Radarr giving every request the same answers as in the first run, adds no movie and reads no answer as "added" |

## Left out

- `log()`: timestamps, console output and the log file. Decisions are returned as `Decision` values instead.
- `time.sleep(1)` between candidates: pacing only, no effect on the outcome.
- HTTP, URLs, headers and JSON. Every request becomes a method of `Server`, which records a `Request` in its log.
- Radarr's answers are inputs. The model fixes them in a `Service` value for the whole run.
  - The id of a created tag is taken from a counter (`nextTagId`).
  - The answer to an add is a function of the posted TMDb id.
  - The server records a movie exactly when it answers 201.
- The TMDb discover request. The lists each provider returns are an input. A failed request is an empty list.
- The repeated fetch inside the loop reuses that one snapshot. A listing that changes between the two fetches is not modelled.
- `date.today()` and `isocalendar()`. The ISO week and the calendar year are parameters (`week`, `year`).
- Python exceptions. A missing JSON key (`movie["titleSlug"]`, `profile["name"]`) or a connection error would stop the script. The model's records always carry these fields.
- `str.lower()` is modelled on ASCII letters only. Unicode case mapping is not.
- A lookup answer that is a non-200 status and one whose body is empty or falsy both become "no details" (a missing key of `Service.lookup`).
- A candidate's title, and its default "Unbekannt", are only logged and are not modelled.
- `tmdb_provider_list.py` is not part of this model. It is a one-shot script that prints the provider list.
- Sync.ExcludedIdsNeverSent: holds only when the lookup answers the id it was asked for. The script posts the lookup's `tmdbId` (line 109), so a lookup that answered with another id could post an excluded one.
- Sync.SecondRunAddsNothing: stated under three extra hypotheses.
  - Both runs see the same `Service`, so Radarr answers each request as it did in the first run. An add that failed in the first run (a 500, say) fails again; a transient failure that succeeded on the second run would add the movie then.
  - The holdings listing works. A failed listing reads as "not held", so the script would post again.
  - The lookup answers the id it was asked for. The add posts the lookup's id, not the candidate's.
- Sync.LabelResolvedOnce: its "same tag" half rests on `Service.tagsListed` being fixed for the whole run. In the script a later failed tag listing gives no tag (line 144), so that title is posted with `tags = []` (line 209) under the same label. The "no later post of the label" half does not depend on this.
