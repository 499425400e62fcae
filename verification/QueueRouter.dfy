/** QueueRouter: the least loaded matching queue, by priority and then position among equals. */
module QueueRouter {
  import opened Options
  import opened Strings
  import opened QueueRegistry

  const MAX_SAFE_INTEGER: int := 0x1F_FFFF_FFFF_FFFF

  /** getJobCounts: an absent load is a failed read. */
  datatype Reading = Counts(waiting: nat, active: nat, delayed: nat, paused: nat) | Unreadable

  function LoadOf(r: Reading): int {
    match r
    case Counts(w, a, d, p) => w + a + d + p
    case Unreadable => MAX_SAFE_INTEGER
  }

  predicate Matches(url: string, pattern: string) {
    if EndsWith(pattern, "/*") then StartsWith(url, pattern[..|pattern| - 2])
    else url == pattern
  }

  function PriorityOf(d: QueueDefinition): int {
    if d.priority.Some? then d.priority.value else 0
  }

  datatype Candidate = Candidate(def: QueueDefinition, load: int)

  predicate Eligible(d: QueueDefinition, url: string, queues: set<string>) {
    d.enabled && d.name in queues && exists i :: 0 <= i < |d.urlPatterns| && Matches(url, d.urlPatterns[i])
  }

  /** The eligible queues with their loads, in configuration order. */
  function Candidates(config: seq<QueueDefinition>, url: string, queues: set<string>, loads: string -> Reading): seq<Candidate> {
    if config == [] then []
    else
      var n := |config| - 1;
      Candidates(config[..n], url, queues, loads)
      + if Eligible(config[n], url, queues) then [Candidate(config[n], LoadOf(loads(config[n].name)))] else []
  }

  /** `a` is chosen over a later or earlier `b` on its merits alone. */
  predicate Better(a: Candidate, b: Candidate) {
    a.load < b.load || (a.load == b.load && PriorityOf(a.def) > PriorityOf(b.def))
  }

  predicate Tied(a: Candidate, b: Candidate) {
    a.load == b.load && PriorityOf(a.def) == PriorityOf(b.def)
  }

  /** Position k holds the optimum: nothing is better, and everything before it is strictly worse. */
  ghost predicate IsBest(c: seq<Candidate>, k: nat) {
    && k < |c|
    && (forall i :: 0 <= i < |c| ==> !Better(c[i], c[k]))
    && (forall i :: 0 <= i < k ==> Better(c[k], c[i]))
  }

  /** A pattern takes a url that is equal to it or, when it ends in a slash and a star, begins with what is before them. */
  ghost predicate Takes(pattern: string, url: string) {
    if exists stem :: pattern == stem + "/*" then exists stem, rest :: pattern == stem + "/*" && url == stem + rest
    else pattern == url
  }

  lemma MatchesExactlyWhen(url: string, pattern: string)
    ensures Matches(url, pattern) <==> Takes(pattern, url)
  {
    EndsWithExactlyWhen(pattern, "/*");
    if EndsWith(pattern, "/*") {
      var stem := pattern[..|pattern| - 2];
      assert pattern == stem + "/*";
      StartsWithExactlyWhen(url, stem);
      forall other | pattern == other + "/*" ensures other == stem {
        assert other == pattern[..|pattern| - 2];
      }
    }
  }

  /** A queue is in the running when it is enabled and open, and a pattern of it takes the url. */
  ghost predicate InTheRunning(d: QueueDefinition, url: string, queues: set<string>) {
    d.enabled && d.name in queues && exists pattern :: pattern in d.urlPatterns && Takes(pattern, url)
  }

  lemma EligibleExactlyWhen(d: QueueDefinition, url: string, queues: set<string>)
    ensures Eligible(d, url, queues) <==> InTheRunning(d, url, queues)
  {
    forall pattern ensures Matches(url, pattern) <==> Takes(pattern, url) {
      MatchesExactlyWhen(url, pattern);
    }
    hide Matches, Takes;
  }

  /** The sum of the four counts, or the greatest safe integer when they cannot be read. */
  ghost predicate IsLoad(r: Reading, load: int) {
    match r
    case Counts(w, a, d, p) => load == w + a + d + p
    case Unreadable => load == 9007199254740991
  }

  /** A lesser load wins, then a greater priority, where none counts as zero, then the earlier place. */
  ghost predicate Wins(d: QueueDefinition, load: int, other: QueueDefinition, otherLoad: int, earlier: bool) {
    var p, q := if d.priority == None then 0 else d.priority.value, if other.priority == None then 0 else other.priority.value;
    load < otherLoad || (load == otherLoad && (p > q || (p == q && earlier)))
  }

  /** The queue at position k is in the running and wins against every other. */
  ghost predicate IsChoice(config: seq<QueueDefinition>, url: string, queues: set<string>, loads: string -> Reading, k: nat) {
    && k < |config| && InTheRunning(config[k], url, queues)
    && forall i, x, y :: 0 <= i < |config| && i != k && InTheRunning(config[i], url, queues)
          && IsLoad(loads(config[i].name), x) && IsLoad(loads(config[k].name), y)
          ==> Wins(config[k], y, config[i], x, k < i)
  }

  /** The candidates stand at these places of the configuration, in rising order, with their loads. */
  ghost predicate Placed(at: seq<nat>, c: seq<Candidate>, config: seq<QueueDefinition>, loads: string -> Reading) {
    && |at| == |c|
    && (forall i :: 0 <= i < |at| ==>
          at[i] < |config| && c[i].def == config[at[i]] && IsLoad(loads(config[at[i]].name), c[i].load))
    && forall i, j :: 0 <= i < j < |at| ==> at[i] < at[j]
  }

  /** The places are those of the queues in the running. */
  ghost predicate PlacesOf(at: seq<nat>, config: seq<QueueDefinition>, url: string, queues: set<string>) {
    && (forall i :: i in at ==> i < |config|)
    && forall i :: 0 <= i < |config| ==> (i in at <==> InTheRunning(config[i], url, queues))
  }

  lemma PlacedOneMore(at: seq<nat>, c: seq<Candidate>, config: seq<QueueDefinition>, d: Candidate, loads: string -> Reading)
    requires Placed(at, c, config, loads) && IsLoad(loads(d.def.name), d.load)
    ensures Placed(at, c, config + [d.def], loads) && Placed(at + [|config|], c + [d], config + [d.def], loads)
  {
    hide IsLoad;
  }

  lemma PlacesOneMore(at: seq<nat>, config: seq<QueueDefinition>, d: QueueDefinition, url: string, queues: set<string>)
    requires PlacesOf(at, config, url, queues)
    ensures PlacesOf(if InTheRunning(d, url, queues) then at + [|config|] else at, config + [d], url, queues)
  {
    hide InTheRunning;
    assert |config| !in at;
  }

  /** The candidates are the queues in the running, in the order of the configuration, with their loads. */
  lemma {:induction false} CandidatesAre(config: seq<QueueDefinition>, url: string, queues: set<string>, loads: string -> Reading)
    returns (at: seq<nat>)
    ensures Placed(at, Candidates(config, url, queues, loads), config, loads) && PlacesOf(at, config, url, queues)
    decreases |config|
  {
    if config == [] {
      at := [];
    } else {
      hide Eligible, InTheRunning, IsLoad, LoadOf, Placed, PlacesOf;
      var n := |config| - 1;
      at := CandidatesAre(config[..n], url, queues, loads);
      EligibleExactlyWhen(config[n], url, queues);
      LoadIs(loads(config[n].name));
      assert config == config[..n] + [config[n]];
      var d := Candidate(config[n], LoadOf(loads(config[n].name)));
      PlacedOneMore(at, Candidates(config[..n], url, queues, loads), config[..n], d, loads);
      PlacesOneMore(at, config[..n], config[n], url, queues);
      at := if Eligible(config[n], url, queues) then at + [n] else at;
    }
  }

  lemma LoadIs(r: Reading)
    ensures IsLoad(r, LoadOf(r)) && forall load :: IsLoad(r, load) ==> load == LoadOf(r)
  {
  }

  lemma BestIsChoice(config: seq<QueueDefinition>, url: string, queues: set<string>, loads: string -> Reading, j: nat)
    requires IsBest(Candidates(config, url, queues, loads), j)
    ensures exists k: nat :: IsChoice(config, url, queues, loads, k) && config[k].name == Candidates(config, url, queues, loads)[j].def.name
  {
    var at := CandidatesAre(config, url, queues, loads);
    var c := Candidates(config, url, queues, loads);
    var k := at[j];
    assert k in at;
    hide Candidates;
    forall i, x, y | 0 <= i < |config| && i != k && InTheRunning(config[i], url, queues)
        && IsLoad(loads(config[i].name), x) && IsLoad(loads(config[k].name), y)
      ensures Wins(config[k], y, config[i], x, k < i)
    {
      LoadIs(loads(config[i].name));
      LoadIs(loads(config[k].name));
      var h :| 0 <= h < |at| && at[h] == i;
      hide IsLoad, InTheRunning;
      assert !Better(c[h], c[j]) && (h < j ==> Better(c[j], c[h]));
      assert h != j;
    }
    assert IsChoice(config, url, queues, loads, k);
  }

  lemma NoneInTheRunning(config: seq<QueueDefinition>, url: string, queues: set<string>, loads: string -> Reading)
    ensures Candidates(config, url, queues, loads) == [] <==> forall d :: d in config ==> !InTheRunning(d, url, queues)
  {
    var at := CandidatesAre(config, url, queues, loads);
    hide Candidates, InTheRunning;
    if at != [] {
      assert at[0] in at;
      assert config[at[0]] in config;
    }
  }

  lemma BestOfOne(c: seq<Candidate>)
    requires c != []
    ensures IsBest(c[..1], 0)
  {
  }

  lemma BestOfMore(c: seq<Candidate>, i: nat, k: nat)
    requires i < |c| && k < i && IsBest(c[..i], k)
    ensures if Better(c[i], c[k]) then IsBest(c[..i + 1], i) else IsBest(c[..i + 1], k)
  {
    assert c[..i + 1][..i] == c[..i];
    assert forall j :: 0 <= j < i ==> c[..i][j] == c[j];
  }

  method DetermineQueueForUrl(config: seq<QueueDefinition>, defaultQueue: string, queues: set<string>,
                              loads: string -> Reading, url: string)
    returns (queueName: string)
    ensures var c := Candidates(config, url, queues, loads);
      if c == [] then queueName == defaultQueue
      else exists k: nat :: IsBest(c, k) && queueName == c[k].def.name
    ensures if forall d :: d in config ==> !InTheRunning(d, url, queues) then queueName == defaultQueue
            else exists k: nat :: IsChoice(config, url, queues, loads, k) && queueName == config[k].name
  {
    NoneInTheRunning(config, url, queues, loads);
    hide InTheRunning, IsChoice, IsBest;
    var matching: seq<Candidate> := [];
    for i := 0 to |config|
      invariant matching == Candidates(config[..i], url, queues, loads)
    {
      var queueDef := config[i];
      assert config[..i + 1][..i] == config[..i];
      if !queueDef.enabled {
        continue;
      }
      var matches := exists p :: 0 <= p < |queueDef.urlPatterns| && Matches(url, queueDef.urlPatterns[p]);
      if !matches {
        continue;
      }
      if queueDef.name !in queues {
        continue;
      }
      matching := matching + [Candidate(queueDef, LoadOf(loads(queueDef.name)))];
    }
    assert config[..|config|] == config;
    if matching != [] {
      var selected := matching[0];
      ghost var k: nat := 0;
      BestOfOne(matching);
      for i := 1 to |matching|
        invariant k < i && selected == matching[k] && IsBest(matching[..i], k)
      {
        var cand := matching[i];
        BestOfMore(matching, i, k);
        if cand.load < selected.load {
          selected, k := cand, i;
          continue;
        }
        if cand.load == selected.load {
          if PriorityOf(cand.def) > PriorityOf(selected.def) {
            selected, k := cand, i;
          }
        }
      }
      assert matching[..|matching|] == matching;
      assert IsBest(matching, k);
      BestIsChoice(config, url, queues, loads, k);
      return selected.def.name;
    }
    return defaultQueue;
  }

  /** There is one optimum, so the contract fixes the answer. */
  lemma BestIsUnique(c: seq<Candidate>, j: nat, k: nat)
    requires IsBest(c, j) && IsBest(c, k)
    ensures j == k
  {
    assert !Better(c[k], c[j]) && !Better(c[j], c[k]);
  }

  function MoveToEnd<T>(s: seq<T>, m: nat): seq<T>
    requires m < |s|
  {
    s[..m] + s[m + 1..] + [s[m]]
  }

  /** Where position i goes when position m moves to the end. */
  function Moved(n: nat, m: nat, i: nat): nat
    requires m < n && i < n
  {
    if i < m then i else if i == m then n - 1 else i - 1
  }

  lemma MovedAt<T>(s: seq<T>, m: nat, i: nat)
    requires m < |s| && i < |s|
    ensures MoveToEnd(s, m)[Moved(|s|, m, i)] == s[i]
  {
  }

  /** Moving one candidate to the end changes which candidate is best exactly when that candidate was the best
      and another one is tied with it. */
  lemma MoveChangesBestExactlyWhen(c: seq<Candidate>, m: nat, k: nat, k': nat)
    requires m < |c| && IsBest(c, k) && IsBest(MoveToEnd(c, m), k')
    ensures k' == Moved(|c|, m, k) <==> !(k == m && exists i :: 0 <= i < |c| && i != m && Tied(c[i], c[m]))
  {
    var d := MoveToEnd(c, m);
    forall i | 0 <= i < |c| ensures d[Moved(|c|, m, i)] == c[i] {
      MovedAt(c, m, i);
    }
    if k == m && exists i :: 0 <= i < |c| && i != m && Tied(c[i], c[m]) {
      var i :| 0 <= i < |c| && i != m && Tied(c[i], c[m]);
      assert Moved(|c|, m, i) < |c| - 1 == Moved(|c|, m, k);
      assert !Better(d[|c| - 1], d[Moved(|c|, m, i)]);
    } else {
      var at := Moved(|c|, m, k);
      forall j | 0 <= j < |d| ensures !Better(d[j], d[at]) && (j < at ==> Better(d[at], d[j])) {
        var i := if j < m then j else if j == |c| - 1 then m else j + 1;
        assert d[j] == c[i];
        if j < at && i > k {
          assert k == m && i != m;
          assert !Tied(c[i], c[m]);
        }
      }
      BestIsUnique(d, k', at);
    }
  }

  // ---------- A no-op update ----------

  lemma {:induction false} CandidatesConcat(a: seq<QueueDefinition>, b: seq<QueueDefinition>, url: string, queues: set<string>,
                                             loads: string -> Reading)
    ensures Candidates(a + b, url, queues, loads) == Candidates(a, url, queues, loads) + Candidates(b, url, queues, loads)
    decreases |b|
  {
    if b == [] {
      assert a + b == a;
    } else {
      var n := |b| - 1;
      assert (a + b)[..|a| + n] == a + b[..n];
      CandidatesConcat(a, b[..n], url, queues, loads);
    }
  }

  /** Candidates of the entries before, at and after position m. */
  lemma CandidatesSplit(config: seq<QueueDefinition>, m: nat, url: string, queues: set<string>, loads: string -> Reading)
    returns (before: seq<Candidate>, here: seq<Candidate>, after: seq<Candidate>)
    requires m < |config|
    ensures Candidates(config, url, queues, loads) == before + (here + after)
    ensures Candidates(MoveToEnd(config, m), url, queues, loads) == before + after + here
    ensures here == [] || (|here| == 1 && here[0].def == config[m])
  {
    var a, b := config[..m], config[m + 1..];
    before, here, after :=
      Candidates(a, url, queues, loads), Candidates([config[m]], url, queues, loads), Candidates(b, url, queues, loads);
    assert config == a + ([config[m]] + b);
    CandidatesConcat(a, [config[m]] + b, url, queues, loads);
    CandidatesConcat([config[m]], b, url, queues, loads);
    CandidatesConcat(a + b, [config[m]], url, queues, loads);
    CandidatesConcat(a, b, url, queues, loads);
    assert [config[m]][..0] == [];
  }

  /** Updating a queue without changing it moves its entry to the end; the routing of a url can change only
      from that queue to one with exactly the same load and priority. */
  lemma NoOpUpdateRoutesAlike(config: seq<QueueDefinition>, m: nat, url: string, queues: set<string>,
                              loads: string -> Reading, k: nat, k': nat)
    requires m < |config|
    requires IsBest(Candidates(config, url, queues, loads), k)
    requires IsBest(Candidates(MoveToEnd(config, m), url, queues, loads), k')
    ensures var c, c' := Candidates(config, url, queues, loads), Candidates(MoveToEnd(config, m), url, queues, loads);
      c[k].def == c'[k'].def || (c[k].def == config[m] && Tied(c[k], c'[k']))
  {
    hide Candidates;
    var before, here, after := CandidatesSplit(config, m, url, queues, loads);
    var c, c' := before + (here + after), before + after + here;
    if here == [] {
      assert c == c';
      BestIsUnique(c, k, k');
    } else {
      var at := |before|;
      assert c[at] == here[0];
      assert MoveToEnd(c, at) == c';
      MoveChangesBestExactlyWhen(c, at, k, k');
      MovedAt(c, at, k);
      if k' != Moved(|c|, at, k) {
        MovedBest(c, at, k, k');
      }
    }
  }

  const NO_CHANGE := Patch(None, None, None, None, None)

  /** An empty update of a queue whose name occurs once in the configuration does just that. */
  lemma NoOpUpdateMovesToEnd(r: Registry, m: nat, luck: Luck)
    requires Agreement(r) && m < |r.config| && r.config[m].name in r.queues && luck.closes && luck.opens
    ensures Update(r, r.config[m].name, NO_CHANGE, luck).0.config == MoveToEnd(r.config, m)
    ensures Update(r, r.config[m].name, NO_CHANGE, luck).0.queues == r.queues
    ensures Update(r, r.config[m].name, NO_CHANGE, luck).0.definitions == r.definitions
  {
    var name := r.config[m].name;
    OnlyEntry(r.config, m);
    assert r.queues - {name} + {name} == r.queues;
    assert (r.definitions - {name})[name := r.definitions[name]] == r.definitions;
  }

  lemma {:induction false} OnlyEntry(config: seq<QueueDefinition>, m: nat)
    requires m < |config| && |EntriesNamed(config, config[m].name)| == 1
    ensures EntriesNamed(config, config[m].name) == [config[m]]
    ensures WithoutName(config, config[m].name) == config[..m] + config[m + 1..]
  {
    if m == 0 {
      NoEntry(config[1..], config[0].name);
    } else {
      if config[0].name == config[m].name {
        HasEntry(config[1..], m - 1);
      }
      OnlyEntry(config[1..], m - 1);
      assert config[..m] + config[m + 1..] == [config[0]] + (config[1..][..m - 1] + config[1..][m..]);
    }
  }

  lemma {:induction false} NoEntry(config: seq<QueueDefinition>, name: string)
    requires EntriesNamed(config, name) == []
    ensures WithoutName(config, name) == config
  {
    if config != [] {
      NoEntry(config[1..], name);
    }
  }

  lemma {:induction false} HasEntry(config: seq<QueueDefinition>, m: nat)
    requires m < |config|
    ensures EntriesNamed(config, config[m].name) != []
  {
    if m > 0 {
      HasEntry(config[1..], m - 1);
    }
  }

  lemma MovedBest(c: seq<Candidate>, m: nat, k: nat, k': nat)
    requires m < |c| && IsBest(c, k) && IsBest(MoveToEnd(c, m), k')
    ensures Tied(c[k], MoveToEnd(c, m)[k'])
  {
    var d := MoveToEnd(c, m);
    MovedAt(c, m, k);
    assert !Better(d[Moved(|c|, m, k)], d[k']);
    var i := if k' < m then k' else if k' == |c| - 1 then m else k' + 1;
    assert d[k'] == c[i] && !Better(c[i], c[k]);
  }
}
