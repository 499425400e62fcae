/** The memory alarm of ResourceMonitorService against its sample history. */
module MemoryAlarm {
  import opened Extremes

  datatype Level = Normal | Warning | Critical

  datatype Signal = MemoryCritical | MemoryWarning | MemoryNormal | RestartRequired(consecutiveWarnings: nat)

  datatype Alarm = Alarm(warning: bool, critical: bool, consecutive: nat)

  /** Usage in bytes against 95% and 80% of the limit in megabytes, scaled to whole numbers. */
  function Classify(heapUsed: nat, maxHeapMB: int): Level {
    if heapUsed * 100 > maxHeapMB * 95 * 1048576 then Critical
    else if heapUsed * 100 > maxHeapMB * 80 * 1048576 then Warning
    else Normal
  }

  /** Above 95% of the limit usage is critical, above 80% it is a warning. */
  lemma ClassifyIs(heapUsed: nat, maxHeapMB: int)
    ensures var used, limit := heapUsed as real, maxHeapMB as real * 1024.0 * 1024.0;
      && (Classify(heapUsed, maxHeapMB) == Critical <==> used > 0.95 * limit)
      && (Classify(heapUsed, maxHeapMB) == Warning <==> !(used > 0.95 * limit) && used > 0.8 * limit)
      && (Classify(heapUsed, maxHeapMB) == Normal <==> !(used > 0.95 * limit) && !(used > 0.8 * limit))
  {
    var used, limit := heapUsed as real, maxHeapMB as real * 1024.0 * 1024.0;
    assert used > 0.95 * limit <==> used * 100.0 > limit * 95.0;
    assert used > 0.8 * limit <==> used * 100.0 > limit * 80.0;
    assert (heapUsed * 100) as real == used * 100.0;
    assert (maxHeapMB * 95 * 1048576) as real == limit * 95.0;
    assert (maxHeapMB * 80 * 1048576) as real == limit * 80.0;
  }

  function Check(a: Alarm, level: Level): (Alarm, seq<Signal>) {
    var next := match level
      case Critical => a.(critical := true, consecutive := a.consecutive + 1)
      case Warning => a.(warning := true, consecutive := a.consecutive + 1)
      case Normal => if a.warning || a.critical then Alarm(false, false, 0) else a;
    var signals := match level
      case Critical => if a.critical then [] else [MemoryCritical]
      case Warning => if a.warning then [] else [MemoryWarning]
      case Normal => if a.warning || a.critical then [MemoryNormal] else [];
    (next, if next.consecutive >= 3 && next.critical then signals + [RestartRequired(next.consecutive)] else signals)
  }

  /** Array.prototype.slice with one argument. */
  function Slice<T>(s: seq<T>, start: int): seq<T> {
    if start < 0 then s[Max(0, |s| + start)..] else s[Min(start, |s|)..]
  }

  class ResourceMonitorService {
    var isMemoryWarning: bool
    var isMemoryCritical: bool
    var consecutiveWarnings: nat
    var stats: seq<nat>
    const maxHeapMB: int
    const maxStatsHistory: int

    ghost function Model(): Alarm
      reads this
    {
      Alarm(isMemoryWarning, isMemoryCritical, consecutiveWarnings)
    }

    constructor (maxHeapMB: int, maxStatsHistory: int)
      ensures Model() == SILENT && stats == []
      ensures this.maxHeapMB == maxHeapMB && this.maxStatsHistory == maxStatsHistory
    {
      isMemoryWarning, isMemoryCritical, consecutiveWarnings, stats := false, false, 0, [];
      this.maxHeapMB, this.maxStatsHistory := maxHeapMB, maxStatsHistory;
    }

    /** One tick of the monitor; a sample is modelled by its heap usage. */
    method CheckResources(heapUsed: nat) returns (signals: seq<Signal>)
      modifies this
      ensures stats == Recorded(old(stats), heapUsed, maxStatsHistory)
      ensures (Model(), signals) == Check(old(Model()), Classify(heapUsed, maxHeapMB))
    {
      AddStats(heapUsed);
      signals := CheckMemoryLimits(heapUsed);
    }

    method AddStats(heapUsed: nat)
      modifies this`stats
      ensures stats == Recorded(old(stats), heapUsed, maxStatsHistory)
    {
      stats := stats + [heapUsed];
      if |stats| > maxStatsHistory {
        stats := Slice(stats, -maxStatsHistory);
      }
    }

    method CheckMemoryLimits(heapUsed: nat) returns (signals: seq<Signal>)
      modifies this`isMemoryWarning, this`isMemoryCritical, this`consecutiveWarnings
      ensures (Model(), signals) == Check(old(Model()), Classify(heapUsed, maxHeapMB))
    {
      signals := [];
      if heapUsed * 100 > maxHeapMB * 95 * 1048576 {
        if !isMemoryCritical {
          isMemoryCritical := true;
          signals := [MemoryCritical];
        }
        consecutiveWarnings := consecutiveWarnings + 1;
      } else if heapUsed * 100 > maxHeapMB * 80 * 1048576 {
        if !isMemoryWarning {
          isMemoryWarning := true;
          signals := [MemoryWarning];
        }
        consecutiveWarnings := consecutiveWarnings + 1;
      } else {
        if isMemoryWarning || isMemoryCritical {
          isMemoryWarning := false;
          isMemoryCritical := false;
          consecutiveWarnings := 0;
          signals := [MemoryNormal];
        }
      }
      if consecutiveWarnings >= 3 && isMemoryCritical {
        signals := signals + [RestartRequired(consecutiveWarnings)];
      }
    }
  }

  // ---------- The alarm as a function of history ----------

  const SILENT := Alarm(false, false, 0)

  /** The alarm after the first i samples. */
  function After(levels: seq<Level>, i: nat): Alarm
    requires i <= |levels|
  {
    if i == 0 then SILENT else Check(After(levels, i - 1), levels[i - 1]).0
  }

  function SignalsAt(levels: seq<Level>, i: nat): seq<Signal>
    requires i < |levels|
  {
    Check(After(levels, i), levels[i]).1
  }

  /** Where the samples since the last normal one begin, looking back from i. */
  function EpisodeStart(levels: seq<Level>, i: nat): nat
    requires i <= |levels|
  {
    if i == 0 || levels[i - 1] == Normal then i else EpisodeStart(levels, i - 1)
  }

  /** A sample of that level lies in the episode before i. */
  ghost predicate Seen(levels: seq<Level>, i: nat, level: Level)
    requires i <= |levels|
  {
    exists k :: EpisodeStart(levels, i) <= k < i && levels[k] == level
  }

  /** The episode is the longest run of elevated samples that ends at i. */
  lemma {:induction false} EpisodeIsLongestElevatedRun(levels: seq<Level>, i: nat)
    requires i <= |levels|
    ensures EpisodeStart(levels, i) <= i
    ensures forall k :: EpisodeStart(levels, i) <= k < i ==> levels[k] != Normal
    ensures EpisodeStart(levels, i) > 0 ==> levels[EpisodeStart(levels, i) - 1] == Normal
  {
    if i > 0 && levels[i - 1] != Normal {
      EpisodeIsLongestElevatedRun(levels, i - 1);
    }
  }

  lemma SeenNext(levels: seq<Level>, i: nat, level: Level)
    requires i < |levels| && level != Normal
    ensures Seen(levels, i + 1, level) <==> levels[i] == level || (levels[i] != Normal && Seen(levels, i, level))
  {
    EpisodeIsLongestElevatedRun(levels, i);
    if levels[i] != Normal {
      assert EpisodeStart(levels, i + 1) == EpisodeStart(levels, i);
    }
  }

  lemma OneMore(levels: seq<Level>, i: nat)
    requires i < |levels|
    ensures After(levels, i + 1) == Check(After(levels, i), levels[i]).0
    ensures EpisodeStart(levels, i + 1) == if levels[i] == Normal then i + 1 else EpisodeStart(levels, i)
  {
  }

  lemma NoneYet(levels: seq<Level>)
    ensures After(levels, 0) == SILENT && EpisodeStart(levels, 0) == 0 && forall level :: !Seen(levels, 0, level)
  {
  }

  /** The flags and the counter say exactly what the current episode holds. */
  lemma {:induction false} AlarmIsEpisode(levels: seq<Level>, i: nat)
    requires i <= |levels|
    ensures EpisodeStart(levels, i) <= i
    ensures After(levels, i) == Alarm(Seen(levels, i, Warning), Seen(levels, i, Critical), i - EpisodeStart(levels, i))
  {
    hide Seen, After, EpisodeStart;
    if i == 0 {
      NoneYet(levels);
    } else {
      AlarmIsEpisode(levels, i - 1);
      OneMore(levels, i - 1);
      SeenNext(levels, i - 1, Warning);
      SeenNext(levels, i - 1, Critical);
      SomethingSeen(levels, i - 1);
    }
  }

  lemma SomethingSeen(levels: seq<Level>, i: nat)
    requires i <= |levels|
    ensures EpisodeStart(levels, i) < i <==> Seen(levels, i, Warning) || Seen(levels, i, Critical)
  {
    EpisodeIsLongestElevatedRun(levels, i);
    if EpisodeStart(levels, i) < i {
      assert levels[i - 1] == Warning || levels[i - 1] == Critical;
    }
  }

  /** The signal for the level of a sample: the first of its kind in the episode, or the end of one. */
  ghost function OwnSignal(levels: seq<Level>, i: nat): seq<Signal>
    requires i < |levels|
  {
    match levels[i]
    case Critical => if Seen(levels, i, Critical) then [] else [MemoryCritical]
    case Warning => if Seen(levels, i, Warning) then [] else [MemoryWarning]
    case Normal => if EpisodeStart(levels, i) < i then [MemoryNormal] else []
  }

  /** Then the restart, for three samples or more, one of them critical. */
  ghost function Restart(levels: seq<Level>, i: nat): seq<Signal>
    requires i < |levels|
  {
    EpisodeIsLongestElevatedRun(levels, i + 1);
    var length := i + 1 - EpisodeStart(levels, i + 1);
    if length >= 3 && Seen(levels, i + 1, Critical) then [RestartRequired(length)] else []
  }

  /** What each sample signals, in terms of the episode before it and the one it belongs to. */
  lemma SignalsFollowHistory(levels: seq<Level>, i: nat)
    requires i < |levels|
    ensures MemoryCritical in SignalsAt(levels, i) <==> levels[i] == Critical && !Seen(levels, i, Critical)
    ensures MemoryWarning in SignalsAt(levels, i) <==> levels[i] == Warning && !Seen(levels, i, Warning)
    ensures MemoryNormal in SignalsAt(levels, i) <==> levels[i] == Normal && EpisodeStart(levels, i) < i
    ensures forall c :: RestartRequired(c) in SignalsAt(levels, i) <==>
      c == i + 1 - EpisodeStart(levels, i + 1) && c >= 3 && Seen(levels, i + 1, Critical)
    ensures SignalsAt(levels, i) == OwnSignal(levels, i) + Restart(levels, i)
  {
    hide Seen, EpisodeStart, After;
    AlarmIsEpisode(levels, i);
    AlarmIsEpisode(levels, i + 1);
    OneMore(levels, i);
    SomethingSeen(levels, i);
  }

  lemma {:induction false} EpisodeReachesBack(levels: seq<Level>, i: nat, j: nat)
    requires i < j <= |levels| && forall k :: i <= k < j ==> levels[k] != Normal
    ensures EpisodeStart(levels, j) <= i
  {
    if i + 1 < j {
      EpisodeReachesBack(levels, i, j - 1);
    } else {
      EpisodeIsLongestElevatedRun(levels, i);
    }
  }

  /** Between two critical signals, as between two warnings, usage was normal: one of each per episode. */
  lemma OneSignalPerEpisode(levels: seq<Level>, i: nat, j: nat, signal: Signal)
    requires i < j < |levels| && (signal == MemoryCritical || signal == MemoryWarning)
    requires signal in SignalsAt(levels, i) && signal in SignalsAt(levels, j)
    ensures exists k :: i < k < j && levels[k] == Normal
  {
    SignalsFollowHistory(levels, i);
    SignalsFollowHistory(levels, j);
    hide SignalsAt;
    if forall k :: i < k < j ==> levels[k] != Normal {
      EpisodeReachesBack(levels, i, j);
    }
  }

  /** The first critical sample of an episode does signal. */
  lemma {:induction false} CriticalEpisodeSignals(levels: seq<Level>, i: nat)
    requires i <= |levels| && Seen(levels, i, Critical)
    ensures exists k: nat :: EpisodeStart(levels, i) <= k < i && MemoryCritical in SignalsAt(levels, k)
  {
    SeenNext(levels, i - 1, Critical);
    SignalsFollowHistory(levels, i - 1);
    EpisodeIsLongestElevatedRun(levels, i);
    if Seen(levels, i - 1, Critical) {
      CriticalEpisodeSignals(levels, i - 1);
    }
  }

  /** The source's comment asks for three critical samples in a row; one is enough. */
  lemma RestartAfterOneCritical()
    ensures RestartRequired(3) in SignalsAt([Critical, Warning, Warning], 2)
  {
    var levels := [Critical, Warning, Warning];
    assert After(levels, 1) == Alarm(false, true, 1);
    assert After(levels, 2) == Alarm(true, true, 2);
  }

  // ---------- The kept samples ----------

  function Recorded(stats: seq<nat>, sample: nat, limit: int): seq<nat> {
    var longer := stats + [sample];
    if |longer| > limit then Slice(longer, -limit) else longer
  }

  function Kept(samples: seq<nat>, limit: int): seq<nat> {
    if samples == [] then [] else Recorded(Kept(samples[..|samples| - 1], limit), samples[|samples| - 1], limit)
  }

  lemma RecordedLast(samples: seq<nat>, limit: int)
    requires samples != [] && limit > 0
    ensures var n := |samples| - 1;
      Recorded(samples[..n][Max(0, n - limit)..], samples[n], limit) == samples[Max(0, n + 1 - limit)..]
  {
    var n := |samples| - 1;
    var from := Max(0, n - limit);
    assert samples[..n][from..] + [samples[n]] == samples[from..];
  }

  /** A positive limit keeps the last samples, zero keeps them all, a negative one keeps none. */
  lemma {:induction false} KeptSamples(samples: seq<nat>, limit: int)
    ensures Kept(samples, limit) ==
      if limit > 0 then samples[Max(0, |samples| - limit)..] else if limit == 0 then samples else []
    decreases |samples|
  {
    if samples != [] {
      var n := |samples| - 1;
      KeptSamples(samples[..n], limit);
      if limit > 0 {
        RecordedLast(samples, limit);
        hide Recorded;
      } else if limit == 0 {
        assert samples == samples[..n] + [samples[n]];
      }
    }
  }

  /** So the history is bounded by its limit exactly when the limit is not zero. */
  lemma HistoryIsBoundedExactlyWhen(limit: int)
    ensures (forall samples :: |Kept(samples, limit)| <= Max(0, limit)) <==> limit != 0
  {
    if limit == 0 {
      KeptSamples([1], limit);
      assert |Kept([1], limit)| == 1;
    } else {
      forall samples ensures |Kept(samples, limit)| <= Max(0, limit) {
        KeptSamples(samples, limit);
      }
    }
  }
}
