/**
 * The Radarr server as the bot sees it. How each endpoint answers during a
 * run is fixed by a `Service` value; what the bot changes (the movies held,
 * the tags) and the requests it sends are the state of a `Server` object.
 * Each endpoint is a method of `Server` and is specified by a function of
 * the same shape on `Store` values, so that whole runs can be reasoned about.
 */
module Radarr {
  import opened Wrappers
  import opened Text

  /** An entry of GET /api/v3/qualityprofile. */
  datatype Profile = Profile(id: int, name: string)

  /** An entry of GET /api/v3/tag. */
  datatype Tag = Tag(id: int, text: string)

  /** An entry of GET /api/v3/exclusions; its `tmdbId` may be missing. */
  datatype ExclusionEntry = ExclusionEntry(tmdbId: Option<int>)

  /** The answer of GET /api/v3/movie/lookup/tmdb: the fields the add request copies. */
  datatype Details = Details(title: string, titleSlug: string, images: seq<string>, tmdbId: int, year: Option<int>)

  /** The body of POST /api/v3/movie. */
  datatype Payload = Payload(
    title: string,
    qualityProfileId: int,
    titleSlug: string,
    images: seq<string>,
    tmdbId: int,
    year: Option<int>,
    monitored: bool,
    rootFolderPath: string,
    searchForMovie: bool,
    tags: seq<int>)

  /** An HTTP answer: its status code and its body text. */
  datatype Response = Response(status: int, body: string)

  /** How the bot reads the answer to an add request. */
  datatype AddOutcome = Added | AlreadyPresent | Rejected(body: string)

  /** A request the bot sends to Radarr. */
  datatype Request =
    | GetProfiles
    | GetExclusions
    | GetMovies
    | LookupMovie(tmdbId: int)
    | GetTags
    | PostTag(text: string)
    | PostMovie(payload: Payload)

  /**
   * How the server answers during one run. A listing that is `None` or
   * flagged false answers with a non-200 status. `lookup` holds the ids whose
   * lookup answers 200 with a non-empty body. `addReply` is the answer to an
   * add request for a given TMDb id.
   */
  datatype Service = Service(
    profiles: Option<seq<Profile>>,
    exclusions: Option<seq<ExclusionEntry>>,
    moviesListed: bool,
    tagsListed: bool,
    tagsCreated: bool,
    lookup: map<int, Details>,
    addReply: int -> Response)

  /** What the bot changes on the server, and the requests it has sent. */
  datatype Store = Store(movies: seq<int>, tags: seq<Tag>, nextTagId: int, requests: seq<Request>)

  const Created: int := 201
  const BadRequest: int := 400
  const AlreadyExistsText: string := "already exists"

  function Log(s: Store, r: Request): Store
  {
    s.(requests := s.requests + [r])
  }

  /** `profile_name.lower() in profile["name"].lower()`. */
  predicate ProfileMatches(p: Profile, name: string)
  {
    Contains(Lower(p.name), Lower(name))
  }

  /** A profile matches when the configured name occurs in its name, ignoring case. */
  lemma ProfileMatchIsCaselessSubstring(p: Profile, name: string)
    ensures ProfileMatches(p, name) <==> exists i :: OccursAt(Lower(p.name), Lower(name), i)
  {
    ContainsIffOccurs(Lower(p.name), Lower(name));
    assert ProfileMatches(p, name) == Contains(Lower(p.name), Lower(name));
  }

  /** Index of the first profile, in listing order, that matches the configured name. */
  function FirstProfile(profiles: seq<Profile>, name: string): (r: Option<nat>)
    ensures r.Some? ==> r.value < |profiles| && ProfileMatches(profiles[r.value], name)
    ensures r.Some? ==> forall j :: 0 <= j < r.value ==> !ProfileMatches(profiles[j], name)
    ensures r.None? ==> forall j :: 0 <= j < |profiles| ==> !ProfileMatches(profiles[j], name)
  {
    if profiles == [] then None
    else if ProfileMatches(profiles[0], name) then Some(0)
    else match FirstProfile(profiles[1..], name)
      case None => None
      case Some(k) => Some(k + 1)
  }

  /** The id `get_quality_profile_id_by_name` returns, and the request it sends. */
  function ProfileReply(svc: Service, s: Store, name: string): (Option<int>, Store)
  {
    var s' := Log(s, GetProfiles);
    match svc.profiles
    case None => (None, s')
    case Some(profiles) =>
      match FirstProfile(profiles, name)
      case None => (None, s')
      case Some(k) => (Some(profiles[k].id), s')
  }

  /** The entries `exclusion_list` returns: none when the listing fails. */
  function ExclusionReply(svc: Service, s: Store): (seq<ExclusionEntry>, Store)
  {
    (if svc.exclusions.Some? then svc.exclusions.value else [], Log(s, GetExclusions))
  }

  /** `is_movie_already_in_radarr`: a failed listing counts as "not held". */
  function HoldingReply(svc: Service, s: Store, tmdbId: int): (bool, Store)
  {
    (svc.moviesListed && tmdbId in s.movies, Log(s, GetMovies))
  }

  /** `lookup_tmdb_id`, with a failed or empty answer read as nothing. */
  function LookupReply(svc: Service, s: Store, tmdbId: int): (Option<Details>, Store)
  {
    (if tmdbId in svc.lookup then Some(svc.lookup[tmdbId]) else None, Log(s, LookupMovie(tmdbId)))
  }

  /** Index of the first tag whose text is exactly `text`. */
  function FirstTag(tags: seq<Tag>, text: string): (r: Option<nat>)
    ensures r.Some? ==> r.value < |tags| && tags[r.value].text == text
    ensures r.Some? ==> forall j :: 0 <= j < r.value ==> tags[j].text != text
    ensures r.None? ==> forall j :: 0 <= j < |tags| ==> tags[j].text != text
  {
    if tags == [] then None
    else if tags[0].text == text then Some(0)
    else match FirstTag(tags[1..], text)
      case None => None
      case Some(k) => Some(k + 1)
  }

  /**
   * `get_or_create_tag_id`: the first tag with this exact text; otherwise a
   * new tag, created only when the listing itself succeeded; nothing on any
   * failure.
   */
  function TagReply(svc: Service, s: Store, text: string): (r: (Option<int>, Store))
    ensures r.1.movies == s.movies
    ensures r.0.Some? ==> svc.tagsListed
    ensures r.0.None? ==> r.1.tags == s.tags && r.1.nextTagId == s.nextTagId
    ensures !svc.tagsListed ==> r == (None, Log(s, GetTags))
  {
    var listed := Log(s, GetTags);
    if !svc.tagsListed then (None, listed)
    else
      match FirstTag(s.tags, text)
      case Some(k) => (Some(s.tags[k].id), listed)
      case None =>
        var posted := Log(listed, PostTag(text));
        if !svc.tagsCreated then (None, posted)
        else (Some(s.nextTagId), posted.(tags := s.tags + [Tag(s.nextTagId, text)], nextTagId := s.nextTagId + 1))
  }

  /** Tag resolution creates at most one tag, and only when no tag has the text. */
  lemma {:induction false} TagReplyCreatesOnlyWhenMissing(svc: Service, s: Store, text: string)
    ensures TagReply(svc, s, text).1.movies == s.movies
    ensures var (id, s') := TagReply(svc, s, text);
            s'.tags == s.tags || (svc.tagsListed && FirstTag(s.tags, text).None? && s'.tags == s.tags + [Tag(id.value, text)])
    ensures PostTag(text) in TagReply(svc, s, text).1.requests[|s.requests|..] ==> svc.tagsListed && FirstTag(s.tags, text).None?
  {
    var (id, s') := TagReply(svc, s, text);
    if svc.tagsListed && FirstTag(s.tags, text).Some? {
      assert s'.requests[|s.requests|..] == [GetTags];
    } else if svc.tagsListed {
    } else {
      assert s'.requests[|s.requests|..] == [GetTags];
    }
  }

  /**
   * With a working tag listing and no tag carrying the text, a tag with the
   * text is posted; a successful creation returns the new tag's id and
   * appends that tag, a failed one gives no tag.
   */
  lemma TagReplyCreatesWhenMissing(svc: Service, s: Store, text: string)
    requires svc.tagsListed && FirstTag(s.tags, text).None?
    ensures TagReply(svc, s, text).1.requests == s.requests + [GetTags, PostTag(text)]
    ensures svc.tagsCreated ==> TagReply(svc, s, text).0 == Some(s.nextTagId)
                                && TagReply(svc, s, text).1.tags == s.tags + [Tag(s.nextTagId, text)]
    ensures !svc.tagsCreated ==> TagReply(svc, s, text).0.None?
  {
  }

  /**
   * Once a text has resolved to a tag, resolving it again on a server whose
   * tags only grew since gives the same tag id and creates nothing.
   */
  lemma {:induction false} TagReplyIsStable(svc: Service, s: Store, text: string, later: Store)
    requires TagReply(svc, s, text).0.Some?
    requires TagReply(svc, s, text).1.tags <= later.tags
    ensures TagReply(svc, later, text) == (TagReply(svc, s, text).0, Log(later, GetTags))
  {
    var (id, s') := TagReply(svc, s, text);
    var k := FirstTag(s'.tags, text);
    match FirstTag(s.tags, text)
    case Some(i) =>
      assert s'.tags == s.tags;
      assert k == Some(i);
      FirstTagOfExtension(s.tags, later.tags, text);
    case None =>
      assert s'.tags == s.tags + [Tag(s.nextTagId, text)];
      assert s'.tags[|s.tags|].text == text;
      assert forall j :: 0 <= j < |s.tags| ==> s'.tags[j] == s.tags[j];
      assert k == Some(|s.tags|);
      FirstTagOfExtension(s'.tags, later.tags, text);
  }

  /** The first match in a list stays the first match when the list is extended. */
  lemma FirstTagOfExtension(tags: seq<Tag>, longer: seq<Tag>, text: string)
    requires FirstTag(tags, text).Some? && tags <= longer
    ensures FirstTag(longer, text) == FirstTag(tags, text)
  {
    var k := FirstTag(tags, text).value;
    assert longer[k] == tags[k];
    assert forall j :: 0 <= j < k ==> longer[j] == tags[j];
  }

  /** The first tag with this text exists and carries this id. */
  predicate Resolves(tags: seq<Tag>, text: string, id: int)
  {
    FirstTag(tags, text).Some? && tags[FirstTag(tags, text).value].id == id
  }

  /** A text keeps resolving to the same id while the tags only grow. */
  lemma ResolvesOnExtension(tags: seq<Tag>, longer: seq<Tag>, text: string, id: int)
    requires Resolves(tags, text, id) && tags <= longer
    ensures Resolves(longer, text, id)
  {
    FirstTagOfExtension(tags, longer, text);
    assert longer[FirstTag(tags, text).value] == tags[FirstTag(tags, text).value];
  }

  /** When tag resolution yields an id, the tags it leaves resolve the text to that id. */
  lemma TagReplyResolves(svc: Service, s: Store, text: string)
    requires TagReply(svc, s, text).0.Some?
    ensures svc.tagsListed && Resolves(TagReply(svc, s, text).1.tags, text, TagReply(svc, s, text).0.value)
  {
    var (id, s') := TagReply(svc, s, text);
    if FirstTag(s.tags, text).None? {
      assert s'.tags == s.tags + [Tag(s.nextTagId, text)];
      assert s'.tags[|s.tags|].text == text;
      assert forall j :: 0 <= j < |s.tags| ==> s'.tags[j] == s.tags[j];
      assert FirstTag(s'.tags, text) == Some(|s.tags|);
    }
  }

  /** A text that already resolves is answered from the listing alone, with no tag posted. */
  lemma TagReplyReuses(svc: Service, s: Store, text: string, id: int)
    requires svc.tagsListed && Resolves(s.tags, text, id)
    ensures TagReply(svc, s, text) == (Some(id), Log(s, GetTags))
  {
  }

  /** The requests after position `from` post no tag with this text. */
  ghost predicate NoTagPostAfter(requests: seq<Request>, from: nat, text: string)
  {
    forall k :: from <= k < |requests| ==> requests[k] != PostTag(text)
  }

  /** Logging any other request keeps the log free of posts of this text. */
  lemma LogKeepsNoTagPost(s: Store, r: Request, from: nat, text: string)
    requires from <= |s.requests| && NoTagPostAfter(s.requests, from, text) && r != PostTag(text)
    ensures s.requests <= Log(s, r).requests && NoTagPostAfter(Log(s, r).requests, from, text)
  {
  }

  /**
   * While `text` resolves to `id`, resolving any other text keeps it so and
   * posts no tag with `text`; resolving `text` itself gives `id`.
   */
  lemma TagReplyKeepsResolution(svc: Service, s: Store, other: string, text: string, id: int, from: nat)
    requires svc.tagsListed && Resolves(s.tags, text, id)
    requires from <= |s.requests| && NoTagPostAfter(s.requests, from, text)
    ensures var (tagId, s') := TagReply(svc, s, other);
            && Resolves(s'.tags, text, id)
            && s.requests <= s'.requests
            && NoTagPostAfter(s'.requests, from, text)
            && (other == text ==> tagId == Some(id))
  {
    LogKeepsNoTagPost(s, GetTags, from, text);
    if other == text {
      TagReplyReuses(svc, s, text, id);
    } else {
      LogKeepsNoTagPost(Log(s, GetTags), PostTag(other), from, text);
      TagReplyCreatesOnlyWhenMissing(svc, s, other);
      ResolvesOnExtension(s.tags, TagReply(svc, s, other).1.tags, text, id);
    }
  }

  /** The body `add_movie_to_radarr` posts. */
  function BuildPayload(movie: Details, qualityProfileId: int, tags: seq<int>, monitored: bool, rootFolder: string): (p: Payload)
    ensures p.title == movie.title && p.titleSlug == movie.titleSlug && p.images == movie.images
    ensures p.tmdbId == movie.tmdbId && p.year == movie.year
    ensures p.qualityProfileId == qualityProfileId && p.tags == tags
    ensures p.monitored == monitored && p.rootFolderPath == rootFolder && p.searchForMovie
  {
    Payload(movie.title, qualityProfileId, movie.titleSlug, movie.images, movie.tmdbId, movie.year,
            monitored, rootFolder, true, tags)
  }

  /**
   * Reading an add answer: 201 is "added"; 400 with "already exists" in the
   * body is "already present"; anything else is an error.
   */
  function Classify(reply: Response): (r: AddOutcome)
    ensures r == Added <==> reply.status == 201
    ensures r == AlreadyPresent <==> reply.status == 400 && exists i :: OccursAt(reply.body, "already exists", i)
    ensures r.Rejected? ==> r.body == reply.body
  {
    ContainsIffOccurs(reply.body, AlreadyExistsText);
    if reply.status == Created then Added
    else if reply.status == BadRequest && Contains(reply.body, AlreadyExistsText) then AlreadyPresent
    else Rejected(reply.body)
  }

  /** The outcome of posting p, and the server recording the movie when it answers 201. */
  function AddReply(svc: Service, s: Store, p: Payload): (AddOutcome, Store)
  {
    var reply := svc.addReply(p.tmdbId);
    var s' := Log(s, PostMovie(p));
    (Classify(reply), s'.(movies := if reply.status == Created then s.movies + [p.tmdbId] else s.movies))
  }

  /** The Radarr server, with the state the bot changes. */
  class Server {
    const svc: Service
    var movies: seq<int>
    var tags: seq<Tag>
    var nextTagId: int
    var requests: seq<Request>

    function State(): Store
      reads this
    {
      Store(movies, tags, nextTagId, requests)
    }

    constructor (svc: Service, init: Store)
      ensures this.svc == svc && State() == init
    {
      this.svc := svc;
      movies, tags, nextTagId, requests := init.movies, init.tags, init.nextTagId, init.requests;
    }

    /** `get_quality_profile_id_by_name`: the first profile whose name contains `name`, ignoring case. */
    method QualityProfileId(name: string) returns (id: Option<int>)
      modifies this`requests
      ensures (id, State()) == ProfileReply(svc, old(State()), name)
    {
      requests := requests + [GetProfiles];
      if svc.profiles.None? {
        return None;
      }
      var profiles := svc.profiles.value;
      var wanted := Lower(name);
      for k := 0 to |profiles|
        invariant forall j :: 0 <= j < k ==> !ProfileMatches(profiles[j], name)
      {
        if Contains(Lower(profiles[k].name), wanted) {
          assert ProfileMatches(profiles[k], name);
          assert FirstProfile(profiles, name) == Some(k);
          return Some(profiles[k].id);
        }
      }
      assert FirstProfile(profiles, name).None?;
      return None;
    }

    /** `exclusion_list`. */
    method Exclusions() returns (entries: seq<ExclusionEntry>)
      modifies this`requests
      ensures (entries, State()) == ExclusionReply(svc, old(State()))
    {
      requests := requests + [GetExclusions];
      entries := if svc.exclusions.Some? then svc.exclusions.value else [];
    }

    /** `is_movie_already_in_radarr`. */
    method IsHeld(tmdbId: int) returns (held: bool)
      modifies this`requests
      ensures (held, State()) == HoldingReply(svc, old(State()), tmdbId)
    {
      requests := requests + [GetMovies];
      held := svc.moviesListed && tmdbId in movies;
    }

    /** `lookup_tmdb_id`. */
    method Lookup(tmdbId: int) returns (details: Option<Details>)
      modifies this`requests
      ensures (details, State()) == LookupReply(svc, old(State()), tmdbId)
    {
      requests := requests + [LookupMovie(tmdbId)];
      details := if tmdbId in svc.lookup then Some(svc.lookup[tmdbId]) else None;
    }

    /** `get_or_create_tag_id`. */
    method GetOrCreateTag(text: string) returns (id: Option<int>)
      modifies this`tags, this`nextTagId, this`requests
      ensures (id, State()) == TagReply(svc, old(State()), text)
    {
      requests := requests + [GetTags];
      if !svc.tagsListed {
        return None;
      }
      for k := 0 to |tags|
        invariant forall j :: 0 <= j < k ==> tags[j].text != text
      {
        if tags[k].text == text {
          assert FirstTag(tags, text) == Some(k);
          return Some(tags[k].id);
        }
      }
      requests := requests + [PostTag(text)];
      if !svc.tagsCreated {
        return None;
      }
      id := Some(nextTagId);
      tags := tags + [Tag(nextTagId, text)];
      nextTagId := nextTagId + 1;
    }

    /** `add_movie_to_radarr`: posts the payload and reads the answer. */
    method AddMovie(movie: Details, qualityProfileId: int, tagIds: seq<int>, monitored: bool, rootFolder: string)
      returns (outcome: AddOutcome)
      modifies this`movies, this`requests
      ensures (outcome, State()) == AddReply(svc, old(State()), BuildPayload(movie, qualityProfileId, tagIds, monitored, rootFolder))
    {
      var payload := BuildPayload(movie, qualityProfileId, tagIds, monitored, rootFolder);
      var reply := svc.addReply(payload.tmdbId);
      requests := requests + [PostMovie(payload)];
      if reply.status == Created {
        movies := movies + [payload.tmdbId];
        outcome := Added;
      } else if reply.status == BadRequest && Contains(reply.body, AlreadyExistsText) {
        outcome := AlreadyPresent;
      } else {
        outcome := Rejected(reply.body);
      }
    }
  }
}
