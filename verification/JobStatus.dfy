/** JobStatusService: the latest status of every job. */
module JobStatus {
  import opened Collections
  import opened Options

  datatype Status = Queued | Processing | Completed | Failed | Progress

  /** `detail` stands for result, error, progress and queue name. */
  datatype Update = Update(jobId: string, status: Status, detail: string, timestamp: int)

  const HOUR: int := 60 * 60 * 1000

  function Stamped(u: Update, now: int): Update {
    u.(timestamp := now)
  }

  function OldJobs(statuses: map<string, Update>, now: int): set<string> {
    set j | j in statuses && statuses[j].timestamp < now - HOUR
  }

  /** A job is old after an hour. */
  lemma OldJobsAre(statuses: map<string, Update>, now: int)
    ensures forall j :: j in OldJobs(statuses, now) <==> j in statuses && statuses[j].timestamp < now - 3600000
  {
  }

  /** All but `entries` have been visited: the old ones among them are gone, and counted. */
  ghost predicate Swept(statuses: map<string, Update>, now: int, entries: set<string>, kept: map<string, Update>, cleaned: nat) {
    entries <= statuses.Keys && kept == statuses - (OldJobs(statuses, now) - entries) && cleaned == |OldJobs(statuses, now) - entries|
  }

  lemma SweepBegins(statuses: map<string, Update>, now: int)
    ensures Swept(statuses, now, statuses.Keys, statuses, 0)
  {
    assert OldJobs(statuses, now) - statuses.Keys == {};
  }

  lemma SweepVisits(statuses: map<string, Update>, now: int, entries: set<string>, kept: map<string, Update>, cleaned: nat,
                    jobId: string)
    requires Swept(statuses, now, entries, kept, cleaned) && jobId in entries
    ensures if statuses[jobId].timestamp < now - HOUR then Swept(statuses, now, entries - {jobId}, kept - {jobId}, cleaned + 1)
            else Swept(statuses, now, entries - {jobId}, kept, cleaned)
  {
    var gone := OldJobs(statuses, now) - entries;
    assert jobId in OldJobs(statuses, now) <==> statuses[jobId].timestamp < now - HOUR;
    hide OldJobs;
    if statuses[jobId].timestamp < now - HOUR {
      assert OldJobs(statuses, now) - (entries - {jobId}) == gone + {jobId};
      MinusTwice(statuses, gone, {jobId});
    } else {
      assert OldJobs(statuses, now) - (entries - {jobId}) == gone;
    }
  }

  lemma SweepEnds(statuses: map<string, Update>, now: int, kept: map<string, Update>, cleaned: nat)
    requires Swept(statuses, now, {}, kept, cleaned)
    ensures kept == statuses - OldJobs(statuses, now) && cleaned == |OldJobs(statuses, now)|
  {
    assert OldJobs(statuses, now) - {} == OldJobs(statuses, now);
  }

  /** The jobs of `jobs` whose status is `status`. */
  function WithStatus(statuses: map<string, Update>, jobs: set<string>, status: Status): set<string> {
    set j | j in jobs && j in statuses && statuses[j].status == status
  }

  class JobStatusService {
    var jobStatuses: map<string, Update>

    constructor ()
      ensures jobStatuses == map[]
    {
      jobStatuses := map[];
    }

    /** Stores the update under its own time stamp; the event that follows carries the update as given. */
    method UpdateJobStatus(update: Update, now: int) returns (event: Update)
      modifies this
      ensures jobStatuses == old(jobStatuses)[update.jobId := Stamped(update, now)]
      ensures event == update
    {
      jobStatuses := jobStatuses[update.jobId := update.(timestamp := now)];
      event := update;
    }

    method GetJobStatus(jobId: string) returns (status: Option<Update>)
      ensures status == if jobId in jobStatuses then Some(jobStatuses[jobId]) else None
    {
      status := if jobId in jobStatuses then Some(jobStatuses[jobId]) else None;
    }

    method CleanupOldJobs(now: int) returns (cleaned: nat)
      modifies this
      ensures jobStatuses == old(jobStatuses) - OldJobs(old(jobStatuses), now)
      ensures cleaned == |OldJobs(old(jobStatuses), now)|
      ensures forall j :: j in jobStatuses <==> j in old(jobStatuses) && old(jobStatuses)[j].timestamp >= now - 3600000
    {
      OldJobsAre(jobStatuses, now);
      hide OldJobs, Swept;
      cleaned := 0;
      var snapshot := jobStatuses;
      var entries := snapshot.Keys;
      SweepBegins(snapshot, now);
      while entries != {}
        invariant entries <= snapshot.Keys
        invariant Swept(snapshot, now, entries, jobStatuses, cleaned)
        decreases entries
      {
        var jobId :| jobId in entries;
        SweepVisits(snapshot, now, entries, jobStatuses, cleaned, jobId);
        entries := entries - {jobId};
        if snapshot[jobId].timestamp < now - HOUR {
          jobStatuses := jobStatuses - {jobId};
          cleaned := cleaned + 1;
        }
      }
      SweepEnds(snapshot, now, jobStatuses, cleaned);
    }

    /** Every job is counted once, under its status; `oldest` is the least time stamp up to now. */
    method GetJobStatistics(now: int) returns (total: nat, byStatus: map<Status, nat>, oldest: int)
      ensures total == |jobStatuses|
      ensures CountsByStatus(jobStatuses, jobStatuses.Keys, byStatus)
      ensures IsOldest(jobStatuses, jobStatuses.Keys, now, oldest)
    {
      total := |jobStatuses|;
      byStatus, oldest := Tally(jobStatuses, now);
    }
  }

  function Count(statuses: map<string, Update>, jobs: set<string>, status: Status): nat {
    |WithStatus(statuses, jobs, status)|
  }

  /** Every status that occurs is counted, with the number of its jobs. */
  ghost predicate CountsByStatus(statuses: map<string, Update>, jobs: set<string>, counts: map<Status, nat>) {
    forall st :: (st in counts <==> Count(statuses, jobs, st) > 0)
      && (st in counts ==> counts[st] == Count(statuses, jobs, st))
  }

  /** The least time stamp, or `now` when none is less. */
  ghost predicate IsOldest(statuses: map<string, Update>, jobs: set<string>, now: int, oldest: int) {
    && oldest <= now
    && (forall j :: j in jobs && j in statuses ==> oldest <= statuses[j].timestamp)
    && (oldest == now || exists j :: j in jobs && j in statuses && statuses[j].timestamp == oldest)
  }

  method Tally(statuses: map<string, Update>, now: int) returns (byStatus: map<Status, nat>, oldest: int)
    ensures CountsByStatus(statuses, statuses.Keys, byStatus)
    ensures IsOldest(statuses, statuses.Keys, now, oldest)
  {
    byStatus := map[];
    oldest := now;
    CountNone(statuses, now);
    hide CountsByStatus, IsOldest;
    var values := statuses.Keys;
    ghost var seen: set<string> := {};
    while values != {}
      invariant seen + values == statuses.Keys && seen * values == {}
      invariant CountsByStatus(statuses, seen, byStatus)
      invariant IsOldest(statuses, seen, now, oldest)
      decreases values
    {
      var jobId :| jobId in values;
      var status := statuses[jobId];
      CountOneMore(statuses, seen, byStatus, jobId);
      OldestOneMore(statuses, seen, now, oldest, jobId);
      values := values - {jobId};
      seen := seen + {jobId};
      byStatus := byStatus[status.status := (if status.status in byStatus then byStatus[status.status] else 0) + 1];
      if status.timestamp < oldest {
        oldest := status.timestamp;
      }
    }
    assert seen == statuses.Keys;
  }

  lemma CountNone(statuses: map<string, Update>, now: int)
    ensures CountsByStatus(statuses, {}, map[]) && IsOldest(statuses, {}, now, now)
  {
  }

  lemma CountOneMore(statuses: map<string, Update>, jobs: set<string>, counts: map<Status, nat>, job: string)
    requires CountsByStatus(statuses, jobs, counts) && job in statuses && job !in jobs
    ensures var st := statuses[job].status;
      CountsByStatus(statuses, jobs + {job}, counts[st := (if st in counts then counts[st] else 0) + 1])
  {
    forall st ensures Count(statuses, jobs + {job}, st) == Count(statuses, jobs, st) + (if st == statuses[job].status then 1 else 0) {
      WithOneMore(statuses, jobs, job, st);
    }
    hide Count;
  }

  lemma OldestOneMore(statuses: map<string, Update>, jobs: set<string>, now: int, oldest: int, job: string)
    requires IsOldest(statuses, jobs, now, oldest) && job in statuses
    ensures IsOldest(statuses, jobs + {job}, now,
                     if statuses[job].timestamp < oldest then statuses[job].timestamp else oldest)
  {
  }

  lemma WithOneMore(statuses: map<string, Update>, jobs: set<string>, job: string, st: Status)
    requires job in statuses && job !in jobs
    ensures Count(statuses, jobs + {job}, st) == Count(statuses, jobs, st) + (if st == statuses[job].status then 1 else 0)
  {
    if st == statuses[job].status {
      assert WithStatus(statuses, jobs + {job}, st) == WithStatus(statuses, jobs, st) + {job};
    } else {
      assert WithStatus(statuses, jobs + {job}, st) == WithStatus(statuses, jobs, st);
    }
  }
}

/** WebSocketService: connected clients, their subscriptions, and what each broadcast reaches. */
module WebSockets {
  import opened Collections
  import opened Options
  import opened JobStatus

  type SocketId = string

  datatype Client = Client(jobIds: set<string>, connectedAt: int)

  const FIVE_MINUTES: int := 5 * 60 * 1000

  /** What trim removes: white space and line ends, as ECMAScript has them. */
  predicate IsSpace(c: char) {
    || '\t' <= c <= '\r' || c == ' ' || c == '\U{A0}' || c == '\U{1680}' || '\U{2000}' <= c <= '\U{200A}'
    || c == '\U{2028}' || c == '\U{2029}' || c == '\U{202F}' || c == '\U{205F}' || c == '\U{3000}' || c == '\U{FEFF}'
  }

  function Trim(s: string): string {
    if s != "" && IsSpace(s[0]) then Trim(s[1..])
    else if s != "" && IsSpace(s[|s| - 1]) then Trim(s[..|s| - 1])
    else s
  }

  ghost predicate AllSpace(s: string) {
    forall c :: c in s ==> IsSpace(c)
  }

  /** `t` is `s` without the white space around it. */
  ghost predicate Trims(s: string, t: string) {
    && (t != "" ==> !IsSpace(t[0]) && !IsSpace(t[|t| - 1]))
    && exists before, after :: s == before + t + after && AllSpace(before) && AllSpace(after)
  }

  /** The characters trim removes, by code point. */
  lemma SpacesAre(c: char)
    ensures IsSpace(c) <==> c as int in {
      9, 10, 11, 12, 13, 32, 160, 5760, 8192, 8193, 8194, 8195, 8196, 8197, 8198, 8199, 8200, 8201, 8202,
      8232, 8233, 8239, 8287, 12288, 65279}
  {
  }

  lemma {:induction false} TrimIs(s: string)
    ensures Trims(s, Trim(s))
    decreases |s|
  {
    hide IsSpace;
    if s != "" && IsSpace(s[0]) {
      TrimIs(s[1..]);
      MoreAhead(s, Trim(s));
    } else if s != "" && IsSpace(s[|s| - 1]) {
      TrimIs(s[..|s| - 1]);
      MoreBehind(s, Trim(s));
    } else {
      assert s == "" + s + "" && AllSpace("");
    }
  }

  lemma MoreAhead(s: string, t: string)
    requires s != "" && IsSpace(s[0]) && Trims(s[1..], t)
    ensures Trims(s, t)
  {
    hide IsSpace;
    var before, after :| s[1..] == before + t + after && AllSpace(before) && AllSpace(after);
    assert s == ([s[0]] + before) + t + after;
    assert AllSpace([s[0]] + before);
  }

  lemma MoreBehind(s: string, t: string)
    requires s != "" && IsSpace(s[|s| - 1]) && Trims(s[..|s| - 1], t)
    ensures Trims(s, t)
  {
    hide IsSpace;
    var before, after :| s[..|s| - 1] == before + t + after && AllSpace(before) && AllSpace(after);
    assert s == before + t + (after + [s[|s| - 1]]);
    assert AllSpace(after + [s[|s| - 1]]);
  }

  /** There is only one such text, so this is what trim must return. */
  lemma TrimIsUnique(s: string, t: string, u: string)
    requires Trims(s, t) && Trims(s, u)
    ensures t == u
  {
    var a, b :| s == a + t + b && AllSpace(a) && AllSpace(b);
    var c, d :| s == c + u + d && AllSpace(c) && AllSpace(d);
    NotBlank(s, a, t, b);
    NotBlank(s, c, u, d);
    Blank(s, a, t, b);
    Blank(s, c, u, d);
    if t != "" && u != "" {
      Borders(s, a, t, b);
      Borders(s, c, u, d);
      hide IsSpace;
      assert |a| == |c| && |a| + |t| == |c| + |u|;
      assert t == s[|a|..|a| + |t|] && u == s[|c|..|c| + |u|];
    }
  }

  lemma NotBlank(s: string, a: string, t: string, b: string)
    requires s == a + t + b
    ensures t != "" && !IsSpace(t[0]) ==> !AllSpace(s)
  {
    if t != "" {
      assert s[|a|] == t[0];
      assert s[|a|] in s;
    }
  }

  lemma Blank(s: string, a: string, t: string, b: string)
    requires s == a + t + b && AllSpace(a) && AllSpace(b)
    ensures t == "" ==> AllSpace(s)
  {
    hide IsSpace;
    if t == "" {
      assert s == a + b;
    }
  }

  lemma Borders(s: string, a: string, t: string, b: string)
    requires s == a + t + b && AllSpace(a) && AllSpace(b) && t != "" && !IsSpace(t[0]) && !IsSpace(t[|t| - 1])
    ensures !IsSpace(s[|a|]) && forall i :: 0 <= i < |a| ==> IsSpace(s[i])
    ensures !IsSpace(s[|a| + |t| - 1]) && forall i :: |a| + |t| <= i < |s| ==> IsSpace(s[i])
  {
    hide IsSpace;
    assert forall i :: 0 <= i < |a| ==> s[i] == a[i] && a[i] in a;
    assert forall i :: |a| + |t| <= i < |s| ==> s[i] == b[i - |a| - |t|] && b[i - |a| - |t|] in b;
  }

  lemma TrimIsBlank(s: string)
    ensures Trim(s) == "" <==> AllSpace(s)
  {
    TrimIs(s);
    var before, after :| s == before + Trim(s) + after && AllSpace(before) && AllSpace(after);
    NotBlank(s, before, Trim(s), after);
    Blank(s, before, Trim(s), after);
  }

  datatype Outcome = Accepted | JobIdRequired | NotRegistered

  function Check(clients: map<SocketId, Client>, sock: SocketId, rawId: string): Outcome {
    if Trim(rawId) == "" then JobIdRequired
    else if sock !in clients then NotRegistered
    else Accepted
  }

  function Subscribed(clients: map<SocketId, Client>, sock: SocketId, jobId: string): map<SocketId, Client>
    requires sock in clients
  {
    clients[sock := clients[sock].(jobIds := clients[sock].jobIds + {jobId})]
  }

  function Unsubscribed(clients: map<SocketId, Client>, sock: SocketId, jobId: string): map<SocketId, Client>
    requires sock in clients
  {
    clients[sock := clients[sock].(jobIds := clients[sock].jobIds - {jobId})]
  }

  function Audience(clients: map<SocketId, Client>, jobId: string): set<SocketId> {
    set c | c in clients && jobId in clients[c].jobIds
  }

  function LongConnected(clients: map<SocketId, Client>, now: int): set<SocketId> {
    set c | c in clients && clients[c].connectedAt < now - FIVE_MINUTES
  }

  class WebSocketService {
    const jobStatusService: JobStatusService
    var clients: map<SocketId, Client>

    constructor (jobStatusService: JobStatusService)
      ensures clients == map[] && this.jobStatusService == jobStatusService
    {
      this.jobStatusService := jobStatusService;
      clients := map[];
    }

    method RegisterClient(sock: SocketId, now: int)
      modifies this
      ensures clients == old(clients)[sock := Client({}, now)]
    {
      clients := clients[sock := Client({}, now)];
    }

    /** `current` is the status to send at once, if any. */
    method SubscribeClientToJob(sock: SocketId, rawId: string) returns (outcome: Outcome, current: Option<Update>)
      modifies this
      ensures outcome == Check(old(clients), sock, rawId)
      ensures outcome.JobIdRequired? <==> AllSpace(rawId)
      ensures outcome.NotRegistered? <==> !AllSpace(rawId) && sock !in old(clients)
      ensures clients == if outcome.Accepted? then Subscribed(old(clients), sock, Trim(rawId)) else old(clients)
      ensures current.Some? <==> outcome.Accepted? && Trim(rawId) in jobStatusService.jobStatuses
      ensures current.Some? ==> current.value == jobStatusService.jobStatuses[Trim(rawId)]
    {
      TrimIsBlank(rawId);
      var jobId := Trim(rawId);
      if jobId == "" {
        return JobIdRequired, None;
      }
      if sock !in clients {
        return NotRegistered, None;
      }
      clients := clients[sock := clients[sock].(jobIds := clients[sock].jobIds + {jobId})];
      var status := jobStatusService.GetJobStatus(jobId);
      return Accepted, status;
    }

    method UnsubscribeClientFromJob(sock: SocketId, rawId: string) returns (outcome: Outcome)
      modifies this
      ensures outcome == Check(old(clients), sock, rawId)
      ensures outcome.JobIdRequired? <==> AllSpace(rawId)
      ensures outcome.NotRegistered? <==> !AllSpace(rawId) && sock !in old(clients)
      ensures clients == if outcome.Accepted? then Unsubscribed(old(clients), sock, Trim(rawId)) else old(clients)
    {
      TrimIsBlank(rawId);
      var jobId := Trim(rawId);
      if jobId == "" {
        return JobIdRequired;
      }
      if sock !in clients {
        return NotRegistered;
      }
      clients := clients[sock := clients[sock].(jobIds := clients[sock].jobIds - {jobId})];
      return Accepted;
    }

    method UnregisterClient(sock: SocketId)
      modifies this
      ensures clients == old(clients) - {sock}
    {
      clients := clients - {sock};
    }

    /** `failing` holds the sockets whose emit throws. */
    method BroadcastJobUpdate(update: Update, failing: set<SocketId>) returns (sent: set<SocketId>)
      modifies this
      ensures sent == Audience(old(clients), update.jobId) - failing
      ensures clients == old(clients) - Audience(old(clients), update.jobId) * failing
    {
      sent := {};
      var snapshot := clients;
      var remaining := snapshot.Keys;
      ghost var gone: set<SocketId> := {};
      while remaining != {}
        invariant remaining <= snapshot.Keys
        invariant sent == Audience(snapshot, update.jobId) - failing - remaining
        invariant gone == Audience(snapshot, update.jobId) * failing - remaining
        invariant clients == snapshot - gone
        decreases remaining
      {
        var sock :| sock in remaining;
        remaining := remaining - {sock};
        if update.jobId in snapshot[sock].jobIds {
          if sock !in failing {
            sent := sent + {sock};
          } else {
            MinusTwice(snapshot, gone, {sock});
            clients := clients - {sock};
            gone := gone + {sock};
          }
        }
      }
    }

    /** Goes by the time of connection, not by activity. */
    method CleanupInactiveClients(now: int)
      modifies this
      ensures clients == old(clients) - LongConnected(old(clients), now)
      ensures forall c :: c in clients <==> c in old(clients) && old(clients)[c].connectedAt >= now - 300000
    {
      var snapshot := clients;
      var remaining := snapshot.Keys;
      ghost var gone: set<SocketId> := {};
      while remaining != {}
        invariant remaining <= snapshot.Keys
        invariant gone == LongConnected(snapshot, now) - remaining
        invariant clients == snapshot - gone
        decreases remaining
      {
        var sock :| sock in remaining;
        remaining := remaining - {sock};
        if snapshot[sock].connectedAt < now - FIVE_MINUTES {
          MinusTwice(snapshot, gone, {sock});
          clients := clients - {sock};
          gone := gone + {sock};
        }
      }
    }
  }
}

/** Runs of both services together: who receives which job updates, and in which order. */
module Subscriptions {
  import opened Options
  import opened JobStatus
  import opened WebSockets

  /** `inbox` collects, per socket, the job-update messages that were sent without an error. */
  datatype Hub = Hub(statuses: map<string, Update>, clients: map<SocketId, Client>, inbox: map<SocketId, seq<Update>>)

  datatype Step =
    | Register(sock: SocketId)
    | Subscribe(sock: SocketId, rawId: string, sends: bool)
    | Unsubscribe(sock: SocketId, rawId: string)
    | Unregister(sock: SocketId)
    | Publish(update: Update, failing: set<SocketId>)
    | CleanupJobs
    | CleanupClients

  datatype Event = Event(step: Step, at: int)

  function Start(): Hub {
    Hub(map[], map[], map[])
  }

  function Received(h: Hub, sock: SocketId): seq<Update> {
    if sock in h.inbox then h.inbox[sock] else []
  }

  function Deliver(inbox: map<SocketId, seq<Update>>, socks: set<SocketId>, u: Update): map<SocketId, seq<Update>> {
    map c | c in inbox.Keys + socks ::
      (if c in inbox then inbox[c] else []) + (if c in socks then [u] else [])
  }

  function Next(h: Hub, e: Event): Hub {
    match e.step
    case Register(c) => h.(clients := h.clients[c := Client({}, e.at)])
    case Subscribe(c, raw, sends) =>
      if !Check(h.clients, c, raw).Accepted? then h
      else
        var j := Trim(raw);
        Hub(h.statuses, Subscribed(h.clients, c, j),
            if j in h.statuses && sends then Deliver(h.inbox, {c}, h.statuses[j]) else h.inbox)
    case Unsubscribe(c, raw) =>
      if !Check(h.clients, c, raw).Accepted? then h else h.(clients := Unsubscribed(h.clients, c, Trim(raw)))
    case Unregister(c) => h.(clients := h.clients - {c})
    case Publish(u, failing) =>
      var audience := Audience(h.clients, u.jobId);
      Hub(h.statuses[u.jobId := Stamped(u, e.at)], h.clients - audience * failing, Deliver(h.inbox, audience - failing, u))
    case CleanupJobs => h.(statuses := h.statuses - OldJobs(h.statuses, e.at))
    case CleanupClients => h.(clients := h.clients - LongConnected(h.clients, e.at))
  }

  function After(events: seq<Event>): Hub {
    if events == [] then Start() else Next(After(events[..|events| - 1]), events[|events| - 1])
  }

  function About(messages: seq<Update>, jobId: string): seq<Update> {
    if messages == [] then []
    else
      var n := |messages| - 1;
      About(messages[..n], jobId) + if messages[n].jobId == jobId then [messages[n]] else []
  }

  /** The updates of a job among the events, in order. */
  function Published(events: seq<Event>, jobId: string): seq<Update> {
    if events == [] then []
    else
      var n := |events| - 1;
      Published(events[..n], jobId)
      + if events[n].step.Publish? && events[n].step.update.jobId == jobId then [events[n].step.update] else []
  }

  ghost predicate FiledUnderOwnId(h: Hub) {
    forall j :: j in h.statuses ==> h.statuses[j].jobId == j
  }

  lemma {:induction false} StatusesFiled(events: seq<Event>)
    ensures FiledUnderOwnId(After(events))
  {
    if events != [] {
      StatusesFiled(events[..|events| - 1]);
    }
  }

  predicate Follows(h: Hub, c: SocketId, j: string) {
    c in h.clients && j in h.clients[c].jobIds
  }

  /** The step neither ends nor renews the subscription of `c` to `j`. */
  predicate Stays(h: Hub, e: Event, c: SocketId, j: string) {
    && Follows(Next(h, e), c, j)
    && !(e.step.Register? && e.step.sock == c)
    && !(e.step.Subscribe? && e.step.sock == c && Trim(e.step.rawId) == j)
  }

  lemma AboutDeliver(h: Hub, socks: set<SocketId>, u: Update, c: SocketId, j: string)
    ensures var h' := h.(inbox := Deliver(h.inbox, socks, u));
      About(Received(h', c), j) == About(Received(h, c), j) + if c in socks && u.jobId == j then [u] else []
  {
    var m := Received(h, c);
    if c in socks {
      assert (m + [u])[..|m|] == m;
      assert Received(h.(inbox := Deliver(h.inbox, socks, u)), c) == m + [u];
    } else if c in h.inbox {
      assert m + [] == m;
    }
  }

  /** The event sends `c` a job update about `j`, and the send goes through. */
  predicate Delivers(h: Hub, e: Event, c: SocketId, j: string) {
    match e.step
    case Publish(u, failing) => u.jobId == j && Follows(h, c, j) && c !in failing
    case Subscribe(sock, raw, sends) =>
      sock == c && Trim(raw) == j && sends && Check(h.clients, c, raw).Accepted? && j in h.statuses
    case _ => false
  }

  /** What it sends: the update published, or the status stored. */
  function Sent(h: Hub, e: Event, c: SocketId, j: string): seq<Update> {
    if !Delivers(h, e, c, j) then [] else if e.step.Publish? then [e.step.update] else [h.statuses[j]]
  }

  /** The messages about a job grow by what is sent, and by nothing else. */
  lemma StepSends(h: Hub, e: Event, c: SocketId, j: string)
    requires FiledUnderOwnId(h)
    ensures About(Received(Next(h, e), c), j) == About(Received(h, c), j) + Sent(h, e, c, j)
  {
    match e.step
    case Publish(u, failing) => PublishSends(h, u, failing, e.at, c, j);
    case Subscribe(sock, raw, sends) => SubscribeSends(h, sock, raw, sends, e.at, c, j);
    case _ =>
  }

  lemma PublishSends(h: Hub, u: Update, failing: set<SocketId>, at: int, c: SocketId, j: string)
    ensures About(Received(Next(h, Event(Publish(u, failing), at)), c), j)
      == About(Received(h, c), j) + Sent(h, Event(Publish(u, failing), at), c, j)
  {
    hide About, Deliver;
    AboutDeliver(h, Audience(h.clients, u.jobId) - failing, u, c, j);
  }

  lemma SubscribeSends(h: Hub, sock: SocketId, raw: string, sends: bool, at: int, c: SocketId, j: string)
    requires FiledUnderOwnId(h)
    ensures About(Received(Next(h, Event(Subscribe(sock, raw, sends), at)), c), j)
      == About(Received(h, c), j) + Sent(h, Event(Subscribe(sock, raw, sends), at), c, j)
  {
    hide About, Deliver, Trim;
    if Check(h.clients, sock, raw).Accepted? && Trim(raw) in h.statuses {
      AboutDeliver(h, {sock}, h.statuses[Trim(raw)], c, j);
    }
  }

  /** While the subscription stays, `c` gets exactly the published updates of `j`. */
  lemma StepDelivers(h: Hub, e: Event, c: SocketId, j: string)
    requires FiledUnderOwnId(h) && Follows(h, c, j) && Stays(h, e, c, j)
    ensures About(Received(Next(h, e), c), j) == About(Received(h, c), j) + Published([e], j)
  {
    hide About, Received, Deliver, Trim;
    StepSends(h, e, c, j);
    assert [e][..0] == [];
    assert Published([e], j) == if e.step.Publish? && e.step.update.jobId == j then [e.step.update] else [];
  }

  lemma {:induction false} PublishedConcat(a: seq<Event>, e: Event, j: string)
    ensures Published(a + [e], j) == Published(a, j) + Published([e], j)
  {
    assert (a + [e])[..|a|] == a && [e][..0] == [];
  }

  /** What `c` should have heard about `j` before event n, when it subscribed at event i. */
  function Due(events: seq<Event>, i: nat, n: nat, c: SocketId, j: string): seq<Update>
    requires i < n <= |events|
  {
    var before := After(events[..i]);
    About(Received(before, c), j)
    + (if j in before.statuses then [before.statuses[j]] else [])
    + Published(events[i + 1..n], j)
  }

  lemma DueGrows(events: seq<Event>, i: nat, n: nat, c: SocketId, j: string)
    requires i + 1 < n <= |events|
    ensures Due(events, i, n, c, j) == Due(events, i, n - 1, c, j) + Published([events[n - 1]], j)
  {
    assert events[i + 1..n] == events[i + 1..n - 1] + [events[n - 1]];
    PublishedConcat(events[i + 1..n - 1], events[n - 1], j);
    hide After, About, Published, Received;
  }

  /** One subscription: the status held when it begins, then every later update, once and in order, until it
      ends; sends to other clients may fail meanwhile. */
  lemma {:induction false} SubscriptionDelivers(events: seq<Event>, i: nat, n: nat, c: SocketId, j: string)
    requires i < n <= |events|
    requires var e := events[i].step;
      e.Subscribe? && e.sock == c && Trim(e.rawId) == j && e.sends && Check(After(events[..i]).clients, c, e.rawId).Accepted?
    requires forall k :: i < k < n ==> Stays(After(events[..k]), events[k], c, j)
    ensures Follows(After(events[..n]), c, j)
    ensures About(Received(After(events[..n]), c), j) == Due(events, i, n, c, j)
    decreases n
  {
    hide Next, After, About, Published, Stays, FiledUnderOwnId, Follows, Received, Check, Trim, Due;
    if n == i + 1 {
      SubscriptionBegins(events, i, c, j);
    } else {
      AfterStep(events, n);
      var h := After(events[..n - 1]);
      StatusesFiled(events[..n - 1]);
      SubscriptionDelivers(events, i, n - 1, c, j);
      StaysFollows(h, events[n - 1], c, j);
      StepDelivers(h, events[n - 1], c, j);
      DueGrows(events, i, n, c, j);
    }
  }

  lemma SubscriptionBegins(events: seq<Event>, i: nat, c: SocketId, j: string)
    requires i < |events|
    requires var e := events[i].step;
      e.Subscribe? && e.sock == c && Trim(e.rawId) == j && e.sends && Check(After(events[..i]).clients, c, e.rawId).Accepted?
    ensures Follows(After(events[..i + 1]), c, j)
    ensures About(Received(After(events[..i + 1]), c), j) == Due(events, i, i + 1, c, j)
  {
    AfterStep(events, i + 1);
    StatusesFiled(events[..i]);
    SubscribeDelivers(After(events[..i]), events[i], c, j);
    assert events[i + 1..i + 1] == [];
    hide Next, After, About, Received;
  }

  lemma AfterStep(events: seq<Event>, n: nat)
    requires 1 <= n <= |events|
    ensures After(events[..n]) == Next(After(events[..n - 1]), events[n - 1])
  {
    assert events[..n][..n - 1] == events[..n - 1];
  }

  lemma StaysFollows(h: Hub, e: Event, c: SocketId, j: string)
    requires Stays(h, e, c, j)
    ensures Follows(Next(h, e), c, j)
  {
  }

  lemma SubscribeDelivers(h: Hub, e: Event, c: SocketId, j: string)
    requires FiledUnderOwnId(h) && e.step.Subscribe? && e.step.sock == c && Trim(e.step.rawId) == j && e.step.sends
    requires Check(h.clients, c, e.step.rawId).Accepted?
    ensures Follows(Next(h, e), c, j)
    ensures About(Received(Next(h, e), c), j)
      == About(Received(h, c), j) + (if j in h.statuses then [h.statuses[j]] else []) + Published([], j)
  {
    if j in h.statuses {
      AboutDeliver(h, {c}, h.statuses[j], c, j);
    }
  }

  // ---------- Convergence ----------

  predicate SameButTime(a: Update, b: Update) {
    a.(timestamp := 0) == b.(timestamp := 0)
  }

  /** If `c` follows `j`, its last message about `j` is the stored status. */
  predicate Converged(h: Hub, c: SocketId, j: string) {
    var m := About(Received(h, c), j);
    Follows(h, c, j) && j in h.statuses ==> m != [] && SameButTime(m[|m| - 1], h.statuses[j])
  }

  lemma ConvergedFrame(h: Hub, t: Hub, c: SocketId, j: string)
    requires Converged(h, c, j) && About(Received(t, c), j) == About(Received(h, c), j)
    requires Follows(t, c, j) ==> Follows(h, c, j)
    requires j in t.statuses ==> j in h.statuses && t.statuses[j] == h.statuses[j]
    ensures Converged(t, c, j)
  {
  }

  lemma PublishConverges(h: Hub, u: Update, failing: set<SocketId>, at: int, c: SocketId, j: string)
    requires Converged(h, c, j)
    ensures Converged(Next(h, Event(Publish(u, failing), at)), c, j)
  {
    var t := Next(h, Event(Publish(u, failing), at));
    AboutDeliver(h, Audience(h.clients, u.jobId) - failing, u, c, j);
    hide About, Deliver;
    if u.jobId == j {
      if Follows(t, c, j) {
        assert About(Received(t, c), j) == About(Received(h, c), j) + [u];
      }
    } else {
      ConvergedFrame(h, t, c, j);
    }
  }

  /** A stored status is sent to `c` about `j` and the send throws; the subscription stands all the same. */
  predicate SendFails(h: Hub, e: Event, c: SocketId, j: string) {
    && e.step.Subscribe? && e.step.sock == c && Trim(e.step.rawId) == j && !e.step.sends
    && Check(h.clients, c, e.step.rawId).Accepted? && j in h.statuses
  }

  lemma SubscribeConverges(h: Hub, sock: SocketId, raw: string, sends: bool, at: int, c: SocketId, j: string)
    requires FiledUnderOwnId(h) && Converged(h, c, j)
    requires !SendFails(h, Event(Subscribe(sock, raw, sends), at), c, j)
    ensures Converged(Next(h, Event(Subscribe(sock, raw, sends), at)), c, j)
  {
    hide About, Received, Deliver, Trim;
    SubscribeSends(h, sock, raw, sends, at, c, j);
  }

  lemma NextConverges(h: Hub, e: Event, c: SocketId, j: string)
    requires FiledUnderOwnId(h) && Converged(h, c, j) && !SendFails(h, e, c, j)
    ensures Converged(Next(h, e), c, j)
  {
    match e.step
    case Publish(u, failing) => PublishConverges(h, u, failing, e.at, c, j);
    case Subscribe(sock, raw, sends) => SubscribeConverges(h, sock, raw, sends, e.at, c, j);
    case _ =>
      hide About;
      ConvergedFrame(h, Next(h, e), c, j);
  }

  /** In every reachable state a subscriber's last message about a job is the stored status, up to the time
      stamp, if from some state in which it was so no send of a stored status of that job to it has thrown. */
  lemma {:induction false} ConvergenceLasts(events: seq<Event>, m: nat, c: SocketId, j: string)
    requires m <= |events| && Converged(After(events[..m]), c, j)
    requires forall k :: m <= k < |events| ==> !SendFails(After(events[..k]), events[k], c, j)
    ensures Converged(After(events), c, j)
    decreases |events|
  {
    hide Next, Converged, SendFails;
    if m == |events| {
      assert events[..m] == events;
    } else {
      var n := |events| - 1;
      forall k | m <= k < n ensures !SendFails(After(events[..n][..k]), events[..n][k], c, j) {
        assert events[..n][..k] == events[..k];
      }
      assert events[..n][..m] == events[..m];
      ConvergenceLasts(events[..n], m, c, j);
      StatusesFiled(events[..n]);
      NextConverges(After(events[..n]), events[n], c, j);
    }
  }

  lemma SubscribersConverge(events: seq<Event>, c: SocketId, j: string)
    requires forall k :: 0 <= k < |events| ==> !SendFails(After(events[..k]), events[k], c, j)
    ensures Converged(After(events), c, j)
  {
    assert events[..0] == [];
    ConvergenceLasts(events, 0, c, j);
  }

  // ---------- Convergence when sends fail ----------

  /** How many events it takes until `c` last heard about `j`; none if it never did. */
  function Heard(events: seq<Event>, c: SocketId, j: string): nat
  {
    if events == [] then 0
    else
      var n := |events| - 1;
      if Delivers(After(events[..n]), events[n], c, j) then n + 1 else Heard(events[..n], c, j)
  }

  /** The latest update of `j` that was published. */
  function Latest(events: seq<Event>, j: string): Option<Update> {
    if events == [] then None
    else
      var n := |events| - 1;
      if events[n].step.Publish? && events[n].step.update.jobId == j then Some(events[n].step.update) else Latest(events[..n], j)
  }

  lemma {:induction false} HeardWithin(events: seq<Event>, c: SocketId, j: string)
    ensures Heard(events, c, j) <= |events|
  {
    if events != [] {
      HeardWithin(events[..|events| - 1], c, j);
    }
  }

  /** A stored status is the latest published update, under its own time. */
  lemma {:induction false} StoredIsLatest(events: seq<Event>, j: string)
    requires j in After(events).statuses
    ensures Latest(events, j).Some? && SameButTime(After(events).statuses[j], Latest(events, j).value)
  {
    var n := |events| - 1;
    var h := After(events[..n]);
    if events[n].step.Publish? && events[n].step.update.jobId == j {
    } else {
      StoredIsLatest(events[..n], j);
    }
  }

  /** The last message: what was the latest update when `c` last heard about `j`. */
  ghost predicate LastMessage(messages: seq<Update>, events: seq<Event>, heard: nat, j: string) {
    && heard <= |events|
    && (messages == [] <==> heard == 0)
    && (messages != [] ==>
          && Latest(events[..heard], j).Some?
          && SameButTime(messages[|messages| - 1], Latest(events[..heard], j).value))
  }

  lemma SentIsLatest(events: seq<Event>, c: SocketId, j: string)
    requires events != []
    ensures var n := |events| - 1; var sent := Sent(After(events[..n]), events[n], c, j);
      sent != [] ==> Latest(events, j).Some? && SameButTime(sent[0], Latest(events, j).value)
  {
    hide Trim;
    var n := |events| - 1;
    if Delivers(After(events[..n]), events[n], c, j) && events[n].step.Subscribe? {
      StoredIsLatest(events[..n], j);
    }
  }

  lemma {:induction false} MessagesAreHeard(events: seq<Event>, c: SocketId, j: string)
    ensures LastMessage(About(Received(After(events), c), j), events, Heard(events, c, j), j)
    decreases |events|
  {
    hide After, Next, About, Received, Delivers, SameButTime;
    if events == [] {
      NothingReceived(c, j);
    } else {
      var n := |events| - 1;
      MessagesAreHeard(events[..n], c, j);
      StatusesFiled(events[..n]);
      AfterLast(events);
      StepSends(After(events[..n]), events[n], c, j);
      SentIsLatest(events, c, j);
      HeardWithin(events[..n], c, j);
      var heard := Heard(events, c, j);
      if heard == n + 1 {
        assert events[..heard] == events;
      } else {
        assert events[..n][..heard] == events[..heard];
      }
    }
  }

  lemma AfterLast(events: seq<Event>)
    requires events != []
    ensures After(events) == Next(After(events[..|events| - 1]), events[|events| - 1])
  {
  }

  lemma NothingReceived(c: SocketId, j: string)
    ensures About(Received(After([]), c), j) == []
  {
  }

  /** Over every run, whichever sends fail: a follower of a stored status is up to date if and only if the update
      that was the latest when it last heard about the job is, but for its time, the latest still. */
  lemma ConvergedExactlyWhen(events: seq<Event>, c: SocketId, j: string)
    requires Follows(After(events), c, j) && j in After(events).statuses
    ensures Heard(events, c, j) <= |events| && Latest(events, j).Some?
    ensures Converged(After(events), c, j) <==>
      Heard(events, c, j) > 0 && Latest(events[..Heard(events, c, j)], j).Some?
      && SameButTime(Latest(events[..Heard(events, c, j)], j).value, Latest(events, j).value)
  {
    MessagesAreHeard(events, c, j);
    StoredIsLatest(events, j);
  }

  /** So a client that has heard about the job is up to date when nothing was published on it since. */
  lemma {:induction false} LatestStays(events: seq<Event>, m: nat, j: string)
    requires m <= |events|
    requires forall k :: m <= k < |events| ==> !(events[k].step.Publish? && events[k].step.update.jobId == j)
    ensures Latest(events, j) == Latest(events[..m], j)
    decreases |events|
  {
    if m < |events| {
      LatestStays(events[..|events| - 1], m, j);
      assert events[..|events| - 1][..m] == events[..m];
    } else {
      assert events[..m] == events;
    }
  }

  lemma NothingMissedConverges(events: seq<Event>, c: SocketId, j: string)
    requires Heard(events, c, j) > 0
    requires forall k :: Heard(events, c, j) <= k < |events| ==> !(events[k].step.Publish? && events[k].step.update.jobId == j)
    ensures Converged(After(events), c, j)
  {
    HeardWithin(events, c, j);
    LatestStays(events, Heard(events, c, j), j);
    if Follows(After(events), c, j) && j in After(events).statuses {
      ConvergedExactlyWhen(events, c, j);
    }
  }

  /** The first update, or the first status on subscribing, that does get through repairs it, and it stays
      repaired until a send of a stored status fails again. */
  lemma DeliveryRestores(events: seq<Event>, m: nat, c: SocketId, j: string)
    requires m < |events| && Delivers(After(events[..m]), events[m], c, j)
    requires forall k :: m < k < |events| ==> !SendFails(After(events[..k]), events[k], c, j)
    ensures Converged(After(events), c, j)
  {
    hide After, Converged, Delivers, SendFails;
    var heard := events[..m + 1];
    assert heard[..m] == events[..m];
    NothingMissedConverges(heard, c, j);
    ConvergenceLasts(events, m + 1, c, j);
  }

  /** A run that does leave a subscriber behind: the status it subscribes to is never sent. */
  lemma FailedSubscribeGoesStale(c: SocketId, u: Update)
    requires Trim(u.jobId) == u.jobId && u.jobId != ""
    ensures var events := [Event(Register(c), 0), Event(Publish(u, {}), 0), Event(Subscribe(c, u.jobId, false), 0)];
      Follows(After(events), c, u.jobId) && !Converged(After(events), c, u.jobId)
  {
    var e0, e1, e2 := Event(Register(c), 0), Event(Publish(u, {}), 0), Event(Subscribe(c, u.jobId, false), 0);
    assert [e0, e1, e2][..2] == [e0, e1] && [e0, e1][..1] == [e0] && [e0][..0] == [];
    AfterLast([e0]);
    AfterLast([e0, e1]);
    AfterLast([e0, e1, e2]);
    var h := After([e0, e1]);
    assert After([]) == Start();
    assert c in h.clients && u.jobId in h.statuses && About(Received(h, c), u.jobId) == [];
  }

  // ---------- What one event does to the subscriptions and statuses ----------

  /** Who follows what after an event, from who did before it. */
  lemma FollowsNextExactlyWhen(h: Hub, e: Event, c: SocketId, j: string)
    ensures Follows(Next(h, e), c, j) <==>
      match e.step
      case Register(sock) => sock != c && Follows(h, c, j)
      case Subscribe(sock, raw, _) => Follows(h, c, j) || (sock == c && c in h.clients && j != "" && Trims(raw, j))
      case Unsubscribe(sock, raw) => Follows(h, c, j) && !(sock == c && j != "" && Trims(raw, j))
      case Unregister(sock) => sock != c && Follows(h, c, j)
      case Publish(u, failing) => Follows(h, c, j) && !(c in failing && Follows(h, c, u.jobId))
      case CleanupJobs => Follows(h, c, j)
      case CleanupClients => Follows(h, c, j) && h.clients[c].connectedAt >= e.at - 300000
  {
    if e.step.Subscribe? || e.step.Unsubscribe? {
      TrimIs(e.step.rawId);
      hide Trims, Trim;
      if Trims(e.step.rawId, j) {
        TrimIsUnique(e.step.rawId, j, Trim(e.step.rawId));
      }
    }
  }

  /** Who is connected after an event, and since when. */
  lemma ConnectedNextExactlyWhen(h: Hub, e: Event, c: SocketId)
    ensures var t, joins := Next(h, e), e.step == Register(c);
      && (c in t.clients <==>
            joins || (c in h.clients &&
                      match e.step
                      case Unregister(sock) => sock != c
                      case Publish(u, failing) => !(c in failing && Follows(h, c, u.jobId))
                      case CleanupClients => h.clients[c].connectedAt >= e.at - 300000
                      case _ => true))
      && (c in t.clients ==> t.clients[c].connectedAt == if joins then e.at else h.clients[c].connectedAt)
  {
    hide Trim, Stamped, Deliver;
  }

  /** Which status is held after an event: the last published, with the time of storing, until a cleanup more than an
      hour later. */
  lemma StatusNextExactlyWhen(h: Hub, e: Event, j: string, status: Update)
    ensures var held := j in h.statuses && h.statuses[j] == status;
      j in Next(h, e).statuses && Next(h, e).statuses[j] == status <==>
      match e.step
      case Publish(u, _) => if u.jobId == j then status == u.(timestamp := e.at) else held
      case CleanupJobs => held && status.timestamp >= e.at - 3600000
      case _ => held
  {
    hide Trim;
  }

  /** Only job ids that neither begin nor end with white space are ever followed, and no empty one. */
  lemma {:induction false} FollowedIdsAreTrimmed(events: seq<Event>, c: SocketId, j: string)
    requires Follows(After(events), c, j)
    ensures j != "" && !IsSpace(j[0]) && !IsSpace(j[|j| - 1])
  {
    var n := |events| - 1;
    if Follows(After(events[..n]), c, j) {
      FollowedIdsAreTrimmed(events[..n], c, j);
    } else {
      hide Next, IsSpace;
      FollowsNextExactlyWhen(After(events[..n]), events[n], c, j);
    }
  }
}
