/**
 The aria2 engine's status query (internal/core/engine/aria2/engine.go and types.go). A magnet download
 changes its ID on the way: the metadata download is followed by that of the content. The daemon's answers
 during a query are inputs.
 */
module Aria2 {
  import opened Wrappers
  import opened Reports
  import opened Numbers
  import Magnet
  import opened StatusLoop

  datatype StatusResponse = StatusResponse(
    gid: string, status: string, totalLength: string, completedLength: string, downloadSpeed: string,
    errorMessage: string, seeder: string, bitTorrentName: Option<string>, files: seq<string>,
    followedBy: seq<string>, following: string)

  function MapStatus(aria2Status: string, seeder: bool): JobState {
    match aria2Status
    case "active" => if seeder then StateCompleted else StateActive
    case "waiting" => StateQueued
    case "paused" => StateActive
    case "complete" => StateCompleted
    case "removed" => StateFailed
    case "error" => StateFailed
    case _ => StateActive
  }

  function ConvertStatus(s: StatusResponse): JobStatus {
    var total, completed := ParseIntOrNearest(s.totalLength), ParseIntOrNearest(s.completedLength);
    var name :=
      if s.bitTorrentName.Some? && s.bitTorrentName.value != "" then s.bitTorrentName.value
      else if s.files != [] && s.files[0] != "" then Magnet.BaseName(s.files[0]) else "";
    JobStatus(s.gid, name, MapStatus(s.status, s.seeder == "true"),
              if total > 0 then completed as real / total as real else 0.0,
              ParseIntOrNearest(s.downloadSpeed), total, completed, s.errorMessage)
  }

  // ---------- What the query finds for an ID ----------

  /** The entry is the ID's own download, or the one that follows it. */
  predicate Concerns(s: StatusResponse, id: string) {
    s.followedBy == [] && (s.gid == id || (s.following != "" && s.following == id))
  }

  /** The last active entry that concerns the ID. */
  function ActiveFor(active: seq<StatusResponse>, id: string): (r: Option<StatusResponse>)
    ensures r.Some? ==> r.value in active && Concerns(r.value, id)
    ensures r.None? ==> forall s :: s in active ==> !Concerns(s, id)
  {
    if active == [] then None
    else if Concerns(active[|active| - 1], id) then Some(active[|active| - 1])
    else ActiveFor(active[..|active| - 1], id)
  }

  function Lost(id: string): JobStatus {
    JobStatus(id, "", StateFailed, 0.0, 0, 0, 0, "download lost from aria2 (GID not found)")
  }

  /** What is reported on an ID, given the active downloads and what the daemon tells about single ones. */
  function StatusOf(id: string, active: seq<StatusResponse>, tell: map<string, StatusResponse>): JobStatus {
    var found := ActiveFor(active, id);
    if found.Some? then ConvertStatus(found.value)
    else if id !in tell then Lost(id)
    else
      var followedBy := tell[id].followedBy;
      if followedBy != [] && followedBy[0] in tell
      then ConvertStatus(tell[followedBy[0]]).(engineJobId := followedBy[0])
      else ConvertStatus(tell[id])
  }

  /** Some active download follows the ID. */
  predicate FollowedActive(active: seq<StatusResponse>, id: string) {
    exists s :: s in active && s.followedBy == [] && s.following != "" && s.following == id
  }

  predicate Stopped(s: StatusResponse) {
    s.status == "complete" || s.status == "error"
  }

  /** Asking about `asked` ends with the removal of the result of `id`: a superseded or stopped download. */
  predicate CleansUp(asked: string, id: string, active: seq<StatusResponse>, tell: map<string, StatusResponse>) {
    if ActiveFor(active, asked).Some? then id == asked && FollowedActive(active, asked)
    else if asked !in tell then false
    else
      var followedBy := tell[asked].followedBy;
      || (id == asked && (followedBy != [] || Stopped(tell[asked])))
      || (followedBy != [] && id == followedBy[0] && id in tell && Stopped(tell[id]))
  }

  predicate Seeds(s: StatusResponse, id: string) {
    s.followedBy == [] && s.gid == id && s.seeder == "true"
  }

  predicate SeedsAmong(active: seq<StatusResponse>, id: string) {
    exists s :: s in active && Seeds(s, id)
  }

  function WithoutSeeds(active: seq<StatusResponse>, tell: map<string, StatusResponse>): map<string, StatusResponse> {
    map id | id in tell && !SeedsAmong(active, id) :: tell[id]
  }

  function CleanedUp(asked: string, active: seq<StatusResponse>, tell: map<string, StatusResponse>)
    : map<string, StatusResponse>
  {
    map id | id in tell && !CleansUp(asked, id, active, tell) :: tell[id]
  }

  /** What the daemon still tells after the first i IDs: results are removed on the way. */
  function Known(ids: seq<string>, i: nat, active: seq<StatusResponse>, tell: map<string, StatusResponse>)
    : map<string, StatusResponse>
    requires i <= |ids|
  {
    if i == 0 then WithoutSeeds(active, tell) else CleanedUp(ids[i - 1], active, Known(ids, i - 1, active, tell))
  }

  /** The answer on the i-th ID, from what the daemon still knows when its turn comes. */
  function AnswerAt(ids: seq<string>, i: nat, active: seq<StatusResponse>, tell: map<string, StatusResponse>): JobStatus
    requires i < |ids|
  {
    StatusOf(ids[i], active, Known(ids, i, active, tell))
  }

  /** The i-th ID is not repeated among the first n. */
  predicate LastOf(ids: seq<string>, i: nat, n: nat)
    requires i < n <= |ids|
  {
    forall k :: i < k < n ==> ids[k] != ids[i]
  }

  function FirstIds(ids: seq<string>, n: nat): set<string>
    requires n <= |ids|
  {
    set i | 0 <= i < n :: ids[i]
  }

  /** The answers on the first n IDs; of a repeated ID the last one stays. */
  ghost predicate AnswersAre(answers: map<string, JobStatus>, ids: seq<string>, n: nat, active: seq<StatusResponse>,
                             tell: map<string, StatusResponse>)
    requires n <= |ids|
  {
    && answers.Keys == FirstIds(ids, n)
    && (forall i :: 0 <= i < n && LastOf(ids, i, n) ==> answers[ids[i]] == AnswerAt(ids, i, active, tell))
  }

  lemma NothingAsked(ids: seq<string>, active: seq<StatusResponse>, tell: map<string, StatusResponse>)
    ensures AnswersAre(map[], ids, 0, active, tell)
  {
  }

  lemma OneMoreAnswer(answers: map<string, JobStatus>, ids: seq<string>, n: nat, active: seq<StatusResponse>,
                      tell: map<string, StatusResponse>)
    requires n < |ids| && AnswersAre(answers, ids, n, active, tell)
    ensures AnswersAre(answers[ids[n] := AnswerAt(ids, n, active, tell)], ids, n + 1, active, tell)
  {
    hide AnswerAt, FirstIds;
    OneMoreId(ids, n);
    forall i | 0 <= i < n && LastOf(ids, i, n + 1) ensures ids[i] != ids[n] && LastOf(ids, i, n) {
    }
  }

  lemma OneMoreId(ids: seq<string>, n: nat)
    requires n < |ids|
    ensures FirstIds(ids, n + 1) == FirstIds(ids, n) + {ids[n]}
    ensures forall i :: 0 <= i < n ==> ids[i] in FirstIds(ids, n)
  {
  }

  /** The index has the last active entry that concerns each ID, and the IDs that are followed. */
  ghost predicate Indexes(gidMap: map<string, JobStatus>, followedParents: set<string>, active: seq<StatusResponse>) {
    && (forall id :: id in gidMap <==> ActiveFor(active, id).Some?)
    && (forall id :: id in gidMap ==> gidMap[id] == ConvertStatus(ActiveFor(active, id).value))
    && (forall id :: id in followedParents <==> FollowedActive(active, id))
  }

  lemma OneMoreIndexed(gidMap: map<string, JobStatus>, parents: set<string>, before: seq<StatusResponse>, s: StatusResponse)
    requires Indexes(gidMap, parents, before)
    ensures s.followedBy != [] ==> Indexes(gidMap, parents, before + [s])
    ensures s.followedBy == [] ==>
              var js := ConvertStatus(s);
              if s.following == "" then Indexes(gidMap[s.gid := js], parents, before + [s])
              else Indexes(gidMap[s.gid := js][s.following := js], parents + {s.following}, before + [s])
  {
    hide ConvertStatus, ActiveFor, FollowedActive, SeedsAmong, Seeds;
    OneMoreActive(before, s);
    var js, more := ConvertStatus(s), before + [s];
    if s.followedBy != [] {
      assert forall id :: ActiveFor(more, id) == ActiveFor(before, id);
    } else if s.following == "" {
      var own := gidMap[s.gid := js];
      forall id ensures (id in own <==> ActiveFor(more, id).Some?) && (id in own ==> own[id] == ConvertStatus(ActiveFor(more, id).value)) {
        assert Concerns(s, id) <==> id == s.gid;
      }
    } else {
      var both := gidMap[s.gid := js][s.following := js];
      forall id ensures (id in both <==> ActiveFor(more, id).Some?) && (id in both ==> both[id] == ConvertStatus(ActiveFor(more, id).value)) {
        assert Concerns(s, id) <==> id == s.gid || id == s.following;
      }
    }
  }

  lemma OneMoreSeed(before: seq<StatusResponse>, s: StatusResponse, tell: map<string, StatusResponse>)
    ensures forall id :: SeedsAmong(before + [s], id) <==> SeedsAmong(before, id) || Seeds(s, id)
    ensures WithoutSeeds(before + [s], tell)
         == if s.followedBy == [] && s.seeder == "true" then WithoutSeeds(before, tell) - {s.gid} else WithoutSeeds(before, tell)
  {
    hide ActiveFor, FollowedActive, SeedsAmong;
    OneMoreActive(before, s);
  }

  lemma NothingIndexed(tell: map<string, StatusResponse>)
    ensures Indexes(map[], {}, []) && WithoutSeeds([], tell) == tell && forall id :: !SeedsAmong([], id)
  {
  }

  class Engine {
    /** What the daemon tells about single downloads; its results go when they are cleaned up. */
    var results: map<string, StatusResponse>
    var forceRemoved: set<string>

    constructor (results: map<string, StatusResponse>)
      ensures this.results == results && forceRemoved == {}
    {
      this.results, forceRemoved := results, {};
    }

    method RemoveDownloadResult(gid: string)
      modifies this`results
      ensures results == old(results) - {gid}
    {
      results := results - {gid};
    }

    /**
     `active` is None when the daemon cannot be asked. Every requested ID gets an answer, from what the
     daemon still knows when its turn comes.
     */
    method BatchStatus(engineJobIds: seq<string>, active: Option<seq<StatusResponse>>)
      returns (result: Option<map<string, JobStatus>>)
      modifies this
      ensures result.Some? <==> active.Some?
      ensures active.None? ==> results == old(results) && forceRemoved == old(forceRemoved)
      ensures result.Some? ==>
                && AnswersAre(result.value, engineJobIds, |engineJobIds|, active.value, old(results))
                && results == Known(engineJobIds, |engineJobIds|, active.value, old(results))
                && forall id :: id in forceRemoved <==> id in old(forceRemoved) || SeedsAmong(active.value, id)
    {
      hide ConvertStatus, ActiveFor, FollowedActive, SeedsAmong, StatusOf, CleanedUp, AnswersAre;
      if active.None? {
        return None;
      }
      ghost var tell := results;
      var gidMap, followedParents := IndexActive(active.value);
      var answers: map<string, JobStatus> := map[];
      assert AnswersAre(answers, engineJobIds, 0, active.value, tell) by { NothingAsked(engineJobIds, active.value, tell); }
      for i := 0 to |engineJobIds|
        invariant results == Known(engineJobIds, i, active.value, tell)
        invariant AnswersAre(answers, engineJobIds, i, active.value, tell)
        invariant forall id :: id in forceRemoved <==> id in old(forceRemoved) || SeedsAmong(active.value, id)
      {
        OneMoreAnswer(answers, engineJobIds, i, active.value, tell);
        var id := engineJobIds[i];
        if id in gidMap {
          FoundActive(id, active.value, results);
          answers := answers[id := gidMap[id]];
          if id in followedParents {
            RemoveDownloadResult(id);
          }
        } else {
          var js := AskSingly(id, active.value);
          answers := answers[id := js];
        }
      }
      return Some(answers);
    }

    /** Active downloads by their own ID and that of the download they follow; seeding ones are stopped. */
    method IndexActive(active: seq<StatusResponse>) returns (gidMap: map<string, JobStatus>, followedParents: set<string>)
      modifies this
      ensures Indexes(gidMap, followedParents, active)
      ensures forall id :: id in forceRemoved <==> id in old(forceRemoved) || SeedsAmong(active, id)
      ensures results == WithoutSeeds(active, old(results))
    {
      hide ConvertStatus, ActiveFor, SeedsAmong, FollowedActive, Indexes, WithoutSeeds;
      gidMap, followedParents := map[], {};
      NothingIndexed(results);
      for i := 0 to |active|
        invariant Indexes(gidMap, followedParents, active[..i])
        invariant forall id :: id in forceRemoved <==> id in old(forceRemoved) || SeedsAmong(active[..i], id)
        invariant results == WithoutSeeds(active[..i], old(results))
      {
        var s := active[i];
        OneMoreIndexed(gidMap, followedParents, active[..i], s);
        OneMoreSeed(active[..i], s, old(results));
        assert active[..i + 1] == active[..i] + [s];
        if |s.followedBy| > 0 {
          continue;
        }
        var js := ConvertStatus(s);
        gidMap := gidMap[s.gid := js];
        if s.following != "" {
          gidMap := gidMap[s.following := js];
          followedParents := followedParents + {s.following};
        }
        if s.seeder == "true" {
          forceRemoved := forceRemoved + {s.gid};
          RemoveDownloadResult(s.gid);
        }
      }
      assert active[..|active|] == active;
    }

    /** An ID that is not in the active list. */
    method AskSingly(id: string, ghost active: seq<StatusResponse>) returns (js: JobStatus)
      requires ActiveFor(active, id).None?
      modifies this`results
      ensures js == StatusOf(id, active, old(results))
      ensures results == CleanedUp(id, active, old(results))
    {
      hide ConvertStatus, ActiveFor;
      if id !in results {
        return Lost(id);
      }
      var s := results[id];
      js := ConvertStatus(s);
      if |s.followedBy| > 0 {
        var childGid := s.followedBy[0];
        if childGid in results {
          var cs := results[childGid];
          js := ConvertStatus(cs).(engineJobId := childGid);
          if cs.status == "complete" || cs.status == "error" {
            RemoveDownloadResult(childGid);
          }
        }
        RemoveDownloadResult(id);
      } else if s.status == "complete" || s.status == "error" {
        RemoveDownloadResult(id);
      }
    }
  }

  lemma FoundActive(id: string, active: seq<StatusResponse>, tell: map<string, StatusResponse>)
    requires ActiveFor(active, id).Some?
    ensures StatusOf(id, active, tell) == ConvertStatus(ActiveFor(active, id).value)
    ensures CleanedUp(id, active, tell) == if FollowedActive(active, id) then tell - {id} else tell
  {
    hide ConvertStatus, ActiveFor, FollowedActive;
  }

  /** Two jobs with the same finished download: the second lookup finds it cleaned up, and both are reported as lost. */
  lemma AskedTwiceIsLost(s: StatusResponse)
    requires s.status == "complete" && s.followedBy == []
    ensures var ids, tell := [s.gid, s.gid], map[s.gid := s];
            AnswerAt(ids, 0, [], tell) == ConvertStatus(s) && AnswerAt(ids, 1, [], tell) == Lost(s.gid)
  {
    var ids, tell := [s.gid, s.gid], map[s.gid := s];
    assert Known(ids, 0, [], tell) == tell;
    assert CleansUp(s.gid, s.gid, [], tell);
  }

  lemma OneMoreActive(before: seq<StatusResponse>, s: StatusResponse)
    ensures forall id :: ActiveFor(before + [s], id) == if Concerns(s, id) then Some(s) else ActiveFor(before, id)
    ensures forall id :: SeedsAmong(before + [s], id) <==> SeedsAmong(before, id) || Seeds(s, id)
    ensures forall id :: FollowedActive(before + [s], id)
                    <==> FollowedActive(before, id) || (s.followedBy == [] && s.following != "" && s.following == id)
  {
    assert (before + [s])[..|before|] == before;
    assert forall x :: x in before + [s] <==> x in before || x == s;
  }

  // ---------- What an answer says ----------

  /** The download that answers for an ID: an active one, else its follower, else the ID's own; None if it is lost. */
  function Answering(id: string, active: seq<StatusResponse>, tell: map<string, StatusResponse>): Option<StatusResponse> {
    if ActiveFor(active, id).Some? then ActiveFor(active, id)
    else if id !in tell then None
    else if tell[id].followedBy != [] && tell[id].followedBy[0] in tell then Some(tell[tell[id].followedBy[0]])
    else Some(tell[id])
  }

  /** The number that a response's text stands for; a text that is no number stands for 0. */
  ghost predicate StandsFor(text: string, n: int) {
    && (forall k: nat :: k < INT_BOUND && text == Digits(k) ==> n == k)
    && (Signed(text).None? ==> n == 0)
    && (ParseInt(text).Some? ==> n == ParseInt(text).value)
  }

  /** The status gives the response's own state, figures, name and error. */
  ghost predicate Tells(st: JobStatus, s: StatusResponse) {
    && (st.state == StateCompleted <==> s.status == "complete" || (s.status == "active" && s.seeder == "true"))
    && (st.state == StateFailed <==> s.status == "removed" || s.status == "error")
    && (st.state == StateQueued <==> s.status == "waiting")
    && StandsFor(s.totalLength, st.totalSize)
    && StandsFor(s.completedLength, st.downloadedSize)
    && StandsFor(s.downloadSpeed, st.speed)
    && (if st.totalSize > 0 then st.progress * st.totalSize as real == st.downloadedSize as real else st.progress == 0.0)
    && (s.bitTorrentName.Some? && s.bitTorrentName.value != "" ==> st.name == s.bitTorrentName.value)
    && (s.bitTorrentName.None? || s.bitTorrentName.value == "" ==>
          && (s.files == [] || s.files[0] == "" ==> st.name == "")
          && (forall dir, base :: s.files != [] && s.files[0] == dir + "/" + base && base != "" && '/' !in base ==> st.name == base))
    && st.error == s.errorMessage
  }

  /** Every answer tells about the download that answers, or that the ID is lost. */
  lemma StatusTells(id: string, active: seq<StatusResponse>, tell: map<string, StatusResponse>)
    ensures var st, s := StatusOf(id, active, tell), Answering(id, active, tell);
            && (s.Some? ==> Tells(st, s.value))
            && (s.None? ==> st.state == StateFailed && st.engineJobId == id
                            && st.error == "download lost from aria2 (GID not found)")
            && (ActiveFor(active, id).Some? ==> st.engineJobId == ActiveFor(active, id).value.gid)
  {
    hide ActiveFor, ConvertStatus, Tells;
    OwnGid();
    var s := Answering(id, active, tell);
    if s.Some? {
      ConvertedTells(s.value, StatusOf(id, active, tell));
    }
  }

  lemma OwnGid()
    ensures forall s: StatusResponse :: ConvertStatus(s).engineJobId == s.gid
  {
    hide Magnet.BaseName, ParseIntOrNearest;
  }

  lemma ConvertedTells(s: StatusResponse, st: JobStatus)
    requires st.(engineJobId := s.gid) == ConvertStatus(s)
    ensures Tells(st, s)
  {
    hide Magnet.BaseName, ParseIntOrNearest, ParseInt, Signed;
    TextStandsFor(s.totalLength);
    TextStandsFor(s.completedLength);
    TextStandsFor(s.downloadSpeed);
    hide StandsFor;
    forall dir, base | s.files != [] && s.files[0] == dir + "/" + base && base != "" && '/' !in base
      ensures Magnet.BaseName(s.files[0]) == base
    {
      Magnet.BaseOfPath(dir, base);
    }
  }

  lemma TextStandsFor(text: string)
    ensures StandsFor(text, ParseIntOrNearest(text))
  {
    forall k: nat | k < INT_BOUND && text == Digits(k) ensures ParseIntOrNearest(text) == k {
      ParseDigits(k);
    }
  }

  /** So every answer of a query tells about the download that answers from what the daemon still knows. */
  lemma BatchTells(answers: map<string, JobStatus>, ids: seq<string>, i: nat, active: seq<StatusResponse>,
                   tell: map<string, StatusResponse>)
    requires AnswersAre(answers, ids, |ids|, active, tell) && i < |ids| && LastOf(ids, i, |ids|)
    ensures ids[i] in answers
    ensures var s := Answering(ids[i], active, Known(ids, i, active, tell));
            if s.Some? then Tells(answers[ids[i]], s.value)
            else answers[ids[i]].state == StateFailed && answers[ids[i]].engineJobId == ids[i]
  {
    hide StatusOf, Answering, Tells, Known;
    StatusTells(ids[i], active, Known(ids, i, active, tell));
  }

  // ---------- Following a download through its IDs ----------

  /**
   The daemon's answers fit together: entries carry their own ID, active ones differ, and a follower is not
   followed itself. When no active entry concerns an ID, its follower is not active either.
   */
  ghost predicate Coherent(active: seq<StatusResponse>, tell: map<string, StatusResponse>) {
    && (forall id :: id in tell ==> tell[id].gid == id)
    && (forall i, k :: 0 <= i < |active| && 0 <= k < |active| && active[i].gid == active[k].gid ==> i == k)
    && (forall s :: s in active && s.following != "" ==> forall t :: t in active ==> t.following != s.gid)
    && (forall id :: ActiveFor(active, id).None? && id in tell
                     && tell[id].followedBy != [] && tell[id].followedBy[0] in tell ==>
          tell[tell[id].followedBy[0]].followedBy == [] && ActiveFor(active, tell[id].followedBy[0]).None?)
  }

  /**
   The answer on an ID is about that ID, or about the download that follows it; and asking again under
   the ID in the answer gives the same answer, so a tracker that takes the new ID over follows the same
   download.
   */
  lemma NewIdNamesSameDownload(id: string, active: seq<StatusResponse>, tell: map<string, StatusResponse>)
    requires Coherent(active, tell)
    ensures var c := StatusOf(id, active, tell).engineJobId;
            && (c == id
                || (exists s :: s in active && s.gid == c && s.following == id)
                || (id in tell && tell[id].followedBy != [] && tell[id].followedBy[0] == c))
            && StatusOf(c, active, tell) == StatusOf(id, active, tell)
  {
    hide Magnet.BaseName, MapStatus;
    var found := ActiveFor(active, id);
    if found.Some? && found.value.gid != id {
    }
  }

  /**
   A followed metadata download is reported under its own ID, and so possibly as complete, exactly when
   the download that follows it is not active and cannot be asked about.
   */
  lemma MetadataReportedExactly(id: string, active: seq<StatusResponse>, tell: map<string, StatusResponse>)
    requires Coherent(active, tell) && id in tell && tell[id].followedBy != [] && id !in tell[id].followedBy
    requires forall s :: s in active && s.gid == id ==> s.followedBy != []
    requires forall s :: s in active && s.following == id ==> s.gid != id
    ensures StatusOf(id, active, tell).engineJobId == id
       <==> (forall s :: s in active ==> !Concerns(s, id)) && tell[id].followedBy[0] !in tell
  {
    hide Magnet.BaseName, MapStatus;
  }

  /** A stopped download or a seeding torrent. */
  predicate Over(s: StatusResponse) {
    s.status == "complete" || s.status == "removed" || s.status == "error" || (s.status == "active" && s.seeder == "true")
  }

  /** An answer is final exactly for downloads that are over and for IDs the daemon does not know. */
  lemma FinalExactly(id: string, active: seq<StatusResponse>, tell: map<string, StatusResponse>)
    ensures Terminal(StatusOf(id, active, tell).state)
       <==> var found := ActiveFor(active, id);
            if found.Some? then Over(found.value)
            else if id !in tell then true
            else if tell[id].followedBy != [] && tell[id].followedBy[0] in tell then Over(tell[tell[id].followedBy[0]])
            else Over(tell[id])
  {
    hide Magnet.BaseName, Over, ConvertStatus, ActiveFor;
    forall s: StatusResponse ensures Terminal(ConvertStatus(s).state) <==> Over(s) {
      OverExactly(s);
    }
  }

  lemma OverExactly(s: StatusResponse)
    ensures Terminal(ConvertStatus(s).state) <==> Over(s)
  {
    hide Magnet.BaseName;
  }

  /** The download itself or its follower, as the daemon shows them. */
  predicate Shown(s: StatusResponse, gid: string, active: seq<StatusResponse>, tell: map<string, StatusResponse>) {
    (s in active && s.followedBy == [] && s.gid == gid) || (gid in tell && s == tell[gid])
  }

  /**
   Once the metadata download of a magnet is over, its job is reported as ended while the content is not
   over exactly when the daemon shows the content neither as active nor on request.
   */
  lemma PrematureEndExactly(id: string, active: seq<StatusResponse>, tell: map<string, StatusResponse>)
    requires Coherent(active, tell) && id in tell && tell[id].followedBy != [] && Over(tell[id])
    requires forall s :: s in active && Concerns(s, id) ==> s.gid == tell[id].followedBy[0]
    requires forall s :: s in active && s.followedBy == [] && s.gid == tell[id].followedBy[0] ==> s.following == id != ""
    requires forall s :: Shown(s, tell[id].followedBy[0], active, tell) ==> !Over(s)
    ensures Terminal(StatusOf(id, active, tell).state)
       <==> forall s :: !Shown(s, tell[id].followedBy[0], active, tell)
  {
    hide Magnet.BaseName, ConvertStatus, Over;
    var c := tell[id].followedBy[0];
    FinalExactly(id, active, tell);
    var found := ActiveFor(active, id);
    if found.Some? {
      assert Shown(found.value, c, active, tell);
    } else if c in tell {
      assert Shown(tell[c], c, active, tell);
    } else {
      forall s ensures !Shown(s, c, active, tell) {
        assert s in active && s.followedBy == [] && s.gid == c ==> Concerns(s, id);
      }
    }
  }

  /** A hand-over as the daemon shows it: the metadata is complete, the content active, and both can be asked about. */
  lemma HandOverIsCoherent(metadata: StatusResponse, content: StatusResponse)
    requires metadata.followedBy == [content.gid] && content.followedBy == []
    requires content.following == metadata.gid && metadata.following == "" && metadata.gid != "" && content.gid != metadata.gid
    ensures var active, tell := [content], map[metadata.gid := metadata, content.gid := content];
            && Coherent(active, tell)
            && StatusOf(metadata.gid, active, tell) == StatusOf(content.gid, active, tell) == ConvertStatus(content)
  {
    hide Magnet.BaseName, ConvertStatus;
    var active := [content];
    assert active[..0] == [] && active[0] == content;
    forall id ensures ActiveFor(active, id) == if Concerns(content, id) then Some(content) else None {
      OneMoreActive([], content);
      assert [] + [content] == active;
    }
  }

  // ---------- How clean-ups change later answers ----------

  /** Asking about `asked` looks the download `id` up. */
  predicate LooksUp(asked: string, id: string, active: seq<StatusResponse>, tell: map<string, StatusResponse>) {
    && ActiveFor(active, asked).None?
    && (id == asked || (asked in tell && tell[asked].followedBy != [] && id == tell[asked].followedBy[0]))
  }

  /**
   A query leaves no result of a download that it reported as complete or failed with an error, nor of one
   that is followed.
   */
  lemma FinishedAreCleanedUp(ids: seq<string>, i: nat, active: seq<StatusResponse>, tell: map<string, StatusResponse>)
    requires i < |ids| && ActiveFor(active, ids[i]).None? && ids[i] in Known(ids, i, active, tell)
    ensures var known, left := Known(ids, i, active, tell), Known(ids, |ids|, active, tell);
            var s := known[ids[i]];
            && (s.followedBy != [] ==> ids[i] !in left)
            && (s.followedBy == [] && (s.status == "complete" || s.status == "error") ==> ids[i] !in left)
            && (s.followedBy != [] && s.followedBy[0] in known
                && (known[s.followedBy[0]].status == "complete" || known[s.followedBy[0]].status == "error") ==>
                  s.followedBy[0] !in left)
  {
    hide ActiveFor;
    KnownShrinks(ids, i + 1, |ids|, active, tell);
  }

  /** A download that nothing follows, neither active nor complete nor in error, keeps its result. */
  lemma UnfinishedAreKept(x: string, ids: seq<string>, active: seq<StatusResponse>, tell: map<string, StatusResponse>)
    requires x in tell && tell[x].followedBy == [] && tell[x].status != "complete" && tell[x].status != "error"
    requires forall s :: s in active ==> s.gid != x && s.following != x
    ensures x in Known(ids, |ids|, active, tell) && Known(ids, |ids|, active, tell)[x] == tell[x]
  {
    Survives(x, ids, |ids|, active, tell);
  }

  /** Seeding downloads lose their results, and those that active downloads follow do once they are asked about. */
  lemma SeedingAreCleanedUp(x: string, ids: seq<string>, active: seq<StatusResponse>, tell: map<string, StatusResponse>)
    requires exists s :: s in active && s.followedBy == [] && ((s.gid == x && s.seeder == "true")
                                                               || (x != "" && s.following == x && x in ids))
    ensures x !in Known(ids, |ids|, active, tell)
  {
    hide CleansUp;
    if SeedsAmong(active, x) {
      KnownShrinks(ids, 0, |ids|, active, tell);
    } else {
      var s :| s in active && s.followedBy == [] && s.following == x && x != "" && x in ids;
      assert FollowedActive(active, x) && Concerns(s, x);
      var i := LastAsked(ids, x);
      CleansUpActive(x, active, Known(ids, i, active, tell));
      KnownShrinks(ids, i + 1, |ids|, active, tell);
    }
  }

  lemma CleansUpActive(asked: string, active: seq<StatusResponse>, tell: map<string, StatusResponse>)
    requires ActiveFor(active, asked).Some?
    ensures forall k :: CleansUp(asked, k, active, tell) <==> k == asked && FollowedActive(active, asked)
  {
  }

  /** Neither a stopped seeding download nor cleaned up for one of the first i IDs, judged by the daemon as it was at first. */
  ghost predicate Untouched(x: string, ids: seq<string>, i: nat, active: seq<StatusResponse>, tell: map<string, StatusResponse>)
    requires i <= |ids|
  {
    !SeedsAmong(active, x) && forall k :: 0 <= k < i ==> !CleansUp(ids[k], x, active, tell)
  }

  lemma SeedIsActive(active: seq<StatusResponse>, id: string)
    requires SeedsAmong(active, id)
    ensures ActiveFor(active, id).Some?
  {
    var s :| s in active && Seeds(s, id);
    assert Concerns(s, id);
  }

  /** An ID that is gone by the time it is asked about was cleaned up as asked before, with its stopped follower. */
  lemma GoneWasAsked(asked: string, x: string, ids: seq<string>, i: nat, active: seq<StatusResponse>,
                     tell: map<string, StatusResponse>)
    requires Coherent(active, tell) && i <= |ids| && x in tell && Untouched(x, ids, i, active, tell)
    requires asked in tell && !Untouched(asked, ids, i, active, tell)
    ensures CleansUp(asked, x, active, tell) ==> ActiveFor(active, asked).Some?
  {
    hide ActiveFor, FollowedActive;
    if SeedsAmong(active, asked) {
      SeedIsActive(active, asked);
    }
  }

  /** What the daemon still knows is exactly what was never touched. */
  lemma {:induction false} KnownExactly(ids: seq<string>, i: nat, active: seq<StatusResponse>, tell: map<string, StatusResponse>)
    requires Coherent(active, tell) && i <= |ids|
    ensures forall x :: x in Known(ids, i, active, tell) <==> x in tell && Untouched(x, ids, i, active, tell)
    ensures forall x :: x in Known(ids, i, active, tell) ==> Known(ids, i, active, tell)[x] == tell[x]
  {
    hide ActiveFor, SeedsAmong, CleansUp, Coherent;
    if i > 0 {
      KnownExactly(ids, i - 1, active, tell);
      var asked, before := ids[i - 1], Known(ids, i - 1, active, tell);
      forall x | x in before ensures CleansUp(asked, x, active, before) <==> CleansUp(asked, x, active, tell) {
        SameCleanUp(ids, i - 1, x, active, tell);
      }
    }
  }

  lemma SameCleanUp(ids: seq<string>, i: nat, x: string, active: seq<StatusResponse>, tell: map<string, StatusResponse>)
    requires Coherent(active, tell) && i < |ids| && x in Known(ids, i, active, tell)
    requires forall y :: y in Known(ids, i, active, tell) <==> y in tell && Untouched(y, ids, i, active, tell)
    requires forall y :: y in Known(ids, i, active, tell) ==> Known(ids, i, active, tell)[y] == tell[y]
    ensures CleansUp(ids[i], x, active, Known(ids, i, active, tell)) <==> CleansUp(ids[i], x, active, tell)
  {
    hide Coherent, ActiveFor, SeedsAmong, Known, Untouched, FollowedActive;
    var asked, before := ids[i], Known(ids, i, active, tell);
    if asked in before {
    } else if asked in tell {
      GoneWasAsked(asked, x, ids, i, active, tell);
    }
  }

  /** No download reports the error that stands for a lost one. */
  predicate ErrorsDiffer(tell: map<string, StatusResponse>) {
    forall x :: x in tell ==> tell[x].errorMessage != Lost(x).error
  }

  /**
   An answer is that of the daemon as it was at first if and only if none of the downloads looked up for it
   has been stopped as seeding or cleaned up for an ID before.
   */
  lemma AnswerIsOfFirstSnapshotExactly(ids: seq<string>, i: nat, active: seq<StatusResponse>, tell: map<string, StatusResponse>)
    requires Coherent(active, tell) && ErrorsDiffer(tell) && i < |ids|
    ensures AnswerAt(ids, i, active, tell) == StatusOf(ids[i], active, tell)
       <==> forall x :: x in tell && LooksUp(ids[i], x, active, tell) ==> Untouched(x, ids, i, active, tell)
  {
    hide Known, Untouched, MapStatus, Magnet.BaseName, ActiveFor;
    KnownExactly(ids, i, active, tell);
    var asked, known := ids[i], Known(ids, i, active, tell);
    if ActiveFor(active, asked).None? && asked in tell {
      assert LooksUp(asked, asked, active, tell);
      if tell[asked].followedBy != [] {
        assert LooksUp(asked, tell[asked].followedBy[0], active, tell);
      }
    }
  }

  // ---------- Polls of aria2 jobs ----------

  const ARIA2 := "aria2"

  /** The jobs are aria2's, a query asked about the IDs of all of them, and it was answered. */
  ghost predicate Queried(jobs: Tracked, ids: seq<string>, answers: Answers, active: seq<StatusResponse>,
                          tell: map<string, StatusResponse>)
  {
    && ARIA2 in answers && answers[ARIA2].Some? && AnswersAre(answers[ARIA2].value, ids, |ids|, active, tell)
    && forall id :: id in jobs ==> jobs[id].engine == ARIA2 && jobs[id].engineJobId in ids
  }

  /** The active downloads that are left after a query has stopped the seeding ones. */
  function StillActive(active: seq<StatusResponse>): seq<StatusResponse> {
    if active == [] then []
    else
      var last := active[|active| - 1];
      StillActive(active[..|active| - 1]) + (if last.followedBy == [] && last.seeder == "true" then [] else [last])
  }

  lemma {:induction false} StillFound(active: seq<StatusResponse>, id: string)
    ensures var found, left := ActiveFor(active, id), ActiveFor(StillActive(active), id);
            (found.None? ==> left.None?) && (found.Some? && found.value.seeder != "true" ==> left == found)
  {
    hide ActiveFor, SeedsAmong, FollowedActive;
    if active == [] {
    } else {
      var before, last := active[..|active| - 1], active[|active| - 1];
      StillFound(before, id);
      assert active == before + [last];
      OneMoreActive(before, last);
      OneMoreActive(StillActive(before), last);
      assert StillActive(before) + [] == StillActive(before);
    }
  }

  /** A download that nothing follows and that is neither active nor stopped outlasts every query. */
  lemma {:induction false} Survives(x: string, ids: seq<string>, i: nat, active: seq<StatusResponse>,
                                    tell: map<string, StatusResponse>)
    requires i <= |ids| && ActiveFor(active, x).None?
    requires x in tell && tell[x].followedBy == [] && !Stopped(tell[x])
    ensures x in Known(ids, i, active, tell) && Known(ids, i, active, tell)[x] == tell[x]
  {
    hide ActiveFor, SeedsAmong, FollowedActive;
    if i == 0 {
      if SeedsAmong(active, x) {
        SeedIsActive(active, x);
      }
    } else {
      Survives(x, ids, i - 1, active, tell);
    }
  }

  lemma {:induction false} KnownShrinks(ids: seq<string>, i: nat, k: nat, active: seq<StatusResponse>,
                                        tell: map<string, StatusResponse>)
    requires i <= k <= |ids|
    ensures forall x :: x in Known(ids, k, active, tell) ==>
              && x in Known(ids, i, active, tell) && x in tell
              && Known(ids, k, active, tell)[x] == Known(ids, i, active, tell)[x] == tell[x]
    decreases k
  {
    hide CleansUp, SeedsAmong;
    if i < k {
      KnownShrinks(ids, i, k - 1, active, tell);
    } else if 0 < k {
      KnownShrinks(ids, k - 1, k - 1, active, tell);
    }
  }

  lemma LastAsked(ids: seq<string>, id: string) returns (i: nat)
    requires id in ids
    ensures i < |ids| && ids[i] == id && LastOf(ids, i, |ids|)
  {
    i := |ids| - 1;
    while ids[i] != id
      invariant i < |ids| && forall k :: i < k < |ids| ==> ids[k] != id
      invariant exists k :: 0 <= k <= i && ids[k] == id
      decreases i
    {
      i := i - 1;
    }
  }

  /** The metadata download is reported for itself although it is followed: its follower is unknown by then. */
  predicate Orphaned(ids: seq<string>, i: nat, active: seq<StatusResponse>, tell: map<string, StatusResponse>)
    requires i < |ids|
  {
    var known := Known(ids, i, active, tell);
    && ActiveFor(active, ids[i]).None? && ids[i] in known
    && known[ids[i]].followedBy != [] && known[ids[i]].followedBy[0] !in known
  }

  /** The daemon lists downloads as active only while they are, and every download has an ID. */
  predicate ActiveAreActive(active: seq<StatusResponse>, tell: map<string, StatusResponse>) {
    "" !in tell && forall s :: s in active ==> s.status == "active" && s.gid != ""
  }

  /** The engine ID under which the tracker goes on asking. */
  function IdAfter(e: string, answer: JobStatus): string {
    if answer.engineJobId != "" then answer.engineJobId else e
  }

  /** The next answer about an active download, whatever the query has cleaned up. */
  lemma ActiveAgain(ids: seq<string>, i: nat, ids': seq<string>, i': nat, active: seq<StatusResponse>,
                    tell: map<string, StatusResponse>)
    requires Coherent(active, tell) && ActiveAreActive(active, tell) && i < |ids| && i' < |ids'|
    requires ActiveFor(active, ids[i]).Some? && !Terminal(AnswerAt(ids, i, active, tell).state)
    requires ids'[i'] == IdAfter(ids[i], AnswerAt(ids, i, active, tell))
    ensures AnswerAt(ids', i', StillActive(active), Known(ids, |ids|, active, tell)) == AnswerAt(ids, i, active, tell)
  {
    hide ActiveFor, Known, Magnet.BaseName;
    var s := ActiveFor(active, ids[i]).value;
    assert s.seeder != "true";
    if s.gid != ids[i] {
    }
    assert ActiveFor(active, s.gid) == Some(s);
    StillFound(active, s.gid);
  }

  /** The next answer about a download that is not active. */
  lemma InactiveAgain(ids: seq<string>, i: nat, ids': seq<string>, i': nat, active: seq<StatusResponse>,
                      tell: map<string, StatusResponse>)
    requires Coherent(active, tell) && ActiveAreActive(active, tell) && i < |ids| && i' < |ids'| && LastOf(ids, i, |ids|)
    requires ActiveFor(active, ids[i]).None? && !Terminal(AnswerAt(ids, i, active, tell).state)
    requires ids'[i'] == IdAfter(ids[i], AnswerAt(ids, i, active, tell))
    ensures AnswerAt(ids', i', StillActive(active), Known(ids, |ids|, active, tell)) == AnswerAt(ids, i, active, tell)
       <==> !Orphaned(ids, i, active, tell)
    ensures Orphaned(ids, i, active, tell) ==>
              Terminal(AnswerAt(ids', i', StillActive(active), Known(ids, |ids|, active, tell)).state)
  {
    hide ActiveFor, Magnet.BaseName, Known, StillActive;
    var e, known := ids[i], Known(ids, i, active, tell);
    var left, active' := Known(ids, |ids|, active, tell), StillActive(active);
    KnownShrinks(ids, 0, i, active, tell);
    assert e in known;
    StillFound(active, e);
    if known[e].followedBy == [] {
      OutlastsBoth(e, ids, ids', i', active, tell);
    } else if known[e].followedBy[0] in known {
      var c := known[e].followedBy[0];
      StillFound(active, c);
      OutlastsBoth(c, ids, ids', i', active, tell);
    } else {
      FollowedIsRemoved(ids, i, active, tell);
      KnownShrinks(ids', 0, i', active', left);
      assert AnswerAt(ids', i', active', left) == Lost(e);
    }
  }

  lemma OutlastsBoth(x: string, ids: seq<string>, ids': seq<string>, i': nat, active: seq<StatusResponse>,
                     tell: map<string, StatusResponse>)
    requires ActiveFor(active, x).None? && x in tell && tell[x].followedBy == [] && i' < |ids'|
    requires !Terminal(ConvertStatus(tell[x]).state)
    ensures var known := Known(ids', i', StillActive(active), Known(ids, |ids|, active, tell));
            x in known && known[x] == tell[x]
  {
    hide ActiveFor, Magnet.BaseName, Known, StillActive;
    assert !Stopped(tell[x]);
    Survives(x, ids, |ids|, active, tell);
    StillFound(active, x);
    Survives(x, ids', i', StillActive(active), Known(ids, |ids|, active, tell));
  }

  lemma FollowedIsRemoved(ids: seq<string>, i: nat, active: seq<StatusResponse>, tell: map<string, StatusResponse>)
    requires i < |ids| && ActiveFor(active, ids[i]).None?
    requires var known := Known(ids, i, active, tell); ids[i] in known && known[ids[i]].followedBy != []
    ensures ids[i] !in Known(ids, |ids|, active, tell)
  {
    assert ids[i] !in Known(ids, i + 1, active, tell) by {
      hide ActiveFor;
    }
    KnownShrinks(ids, i + 1, |ids|, active, tell);
  }

  /**
   Two polls in a row, the second of the daemon as the first one's clean-ups leave it. A job that is still
   tracked, under the ID taken over, gets the same answer again if and only if it was not reported by a
   metadata download without its follower: the query removes that download, and the next one reports the
   job as lost.
   */
  lemma PollAgain(listed: Tracked, ids: seq<string>, answers: Answers, ids': seq<string>, again: Answers,
                  active: seq<StatusResponse>, tell: map<string, StatusResponse>, id: JobId)
    returns (i: nat)
    requires Coherent(active, tell) && ActiveAreActive(active, tell) && Queried(listed, ids, answers, active, tell)
    requires id in AfterPoll(listed, listed, answers)
    ensures i < |ids| && ids[i] == listed[id].engineJobId && AnswerFor(listed[id], answers) == Some(AnswerAt(ids, i, active, tell))
    ensures var next := AfterPoll(listed, listed, answers);
            Queried(next, ids', again, StillActive(active), Known(ids, |ids|, active, tell)) ==>
            && (AnswerFor(next[id], again) == AnswerFor(listed[id], answers) <==> !Orphaned(ids, i, active, tell))
            && (!Orphaned(ids, i, active, tell) ==>
                  id in AfterPoll(next, next, again) && AfterPoll(next, next, again)[id] == next[id])
            && (Orphaned(ids, i, active, tell) ==> id !in AfterPoll(next, next, again))
  {
    hide AnswerAt, Coherent, ActiveFor, Known, StillActive;
    var next := AfterPoll(listed, listed, answers);
    i := LastAsked(ids, listed[id].engineJobId);
    if !Queried(next, ids', again, StillActive(active), Known(ids, |ids|, active, tell)) {
      return;
    }
    var i' := LastAsked(ids', next[id].engineJobId);
    hide Orphaned;
    if ActiveFor(active, ids[i]).Some? {
      ActiveAgain(ids, i, ids', i', active, tell);
      assert !Orphaned(ids, i, active, tell);
    } else {
      InactiveAgain(ids, i, ids', i', active, tell);
    }
  }

  /** Such a job: its paused metadata download names a follower that the daemon does not know. */
  lemma OrphanIsLost(s: StatusResponse)
    requires |s.followedBy| == 1 && s.followedBy[0] != s.gid && s.status == "paused"
    ensures var ids, tell := [s.gid], map[s.gid := s];
            && Orphaned(ids, 0, [], tell) && AnswerAt(ids, 0, [], tell) == ConvertStatus(s)
            && AnswerAt(ids, 0, [], Known(ids, 1, [], tell)) == Lost(s.gid)
  {
    hide ConvertStatus;
    var ids, tell := [s.gid], map[s.gid := s];
    assert Known(ids, 0, [], tell) == tell;
    assert CleansUp(s.gid, s.gid, [], tell);
  }
}
