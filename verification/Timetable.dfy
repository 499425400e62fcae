/** SchedulesFixture: sections take the three patterns and the classrooms in turn. */
module Timetable {
  import opened Options

  datatype Slot = Slot(weekday: string, start: string, end: string)

  datatype Schedule = Schedule(section: string, slot: Slot, classroom: Option<string>)

  /** The slots of morning, afternoon and night. */
  function Pattern(p: nat): seq<Slot> {
    match p
    case 0 => [Slot("Monday", "08:00", "10:00"), Slot("Wednesday", "08:00", "10:00")]
    case 1 => [Slot("Tuesday", "14:00", "16:00"), Slot("Thursday", "14:00", "16:00")]
    case _ => [Slot("Monday", "18:00", "20:00"), Slot("Friday", "18:00", "20:00")]
  }

  function ClassroomAt(classrooms: seq<string>, index: nat): Option<string> {
    if classrooms == [] then None else Some(classrooms[index % |classrooms|])
  }

  function SectionSchedules(section: string, classroom: Option<string>, p: nat): seq<Schedule> {
    [Schedule(section, Pattern(p)[0], classroom), Schedule(section, Pattern(p)[1], classroom)]
  }

  method GetSchedulesForSection(section: string, classroom: Option<string>, p: nat) returns (schedules: seq<Schedule>)
    ensures schedules == SectionSchedules(section, classroom, p)
  {
    var pattern := Pattern(p);
    schedules := [];
    for i := 0 to |pattern|
      invariant schedules == SectionSchedules(section, classroom, p)[..i]
    {
      schedules := schedules + [Schedule(section, pattern[i], classroom)];
    }
  }

  /** Section i owns the schedules at 2i and 2i + 1, under pattern i mod 3 and classroom i mod m. */
  method GetSchedulesForMultipleSections(sections: seq<string>, classrooms: seq<string>) returns (schedules: seq<Schedule>)
    ensures |schedules| == 2 * |sections|
    ensures forall i :: 0 <= i < |sections| ==>
      schedules[2 * i..2 * i + 2] == Own(sections, classrooms, i)
  {
    schedules := [];
    for index := 0 to |sections|
      invariant |schedules| == 2 * index
      invariant forall i :: 0 <= i < index ==>
        schedules[2 * i..2 * i + 2] == Own(sections, classrooms, i)
    {
      var classroom := if |classrooms| > 0 then Some(classrooms[index % |classrooms|]) else None;
      var own := GetSchedulesForSection(sections[index], classroom, index % 3);
      OwnAppended(schedules, own, sections, classrooms, index);
      schedules := schedules + own;
    }
  }

  /** Appending the schedules of one section leaves those of the others where they are. */
  lemma OwnAppended(schedules: seq<Schedule>, own: seq<Schedule>, sections: seq<string>, classrooms: seq<string>, index: nat)
    requires index < |sections| && |schedules| == 2 * index && own == Own(sections, classrooms, index)
    requires forall i :: 0 <= i < index ==> schedules[2 * i..2 * i + 2] == Own(sections, classrooms, i)
    ensures |schedules + own| == 2 * (index + 1)
    ensures forall i :: 0 <= i <= index ==> (schedules + own)[2 * i..2 * i + 2] == Own(sections, classrooms, i)
  {
    assert |own| == 2;
    hide Own;
    forall i | 0 <= i <= index ensures (schedules + own)[2 * i..2 * i + 2] == Own(sections, classrooms, i) {
      if i < index {
        SliceOfFirst(schedules, own, 2 * i, 2 * i + 2);
      } else {
        SliceOfSecond(schedules, own);
      }
    }
  }

  lemma SliceOfFirst(a: seq<Schedule>, b: seq<Schedule>, low: nat, high: nat)
    requires low <= high <= |a|
    ensures (a + b)[low..high] == a[low..high]
  {
  }

  lemma SliceOfSecond(a: seq<Schedule>, b: seq<Schedule>)
    ensures (a + b)[|a|..|a| + |b|] == b
  {
  }

  /** The two slots of section i: morning, afternoon and night in turn. */
  lemma SlotsInTurn(sections: seq<string>, classrooms: seq<string>, i: nat)
    requires i < |sections|
    ensures var own := Own(sections, classrooms, i);
      && |own| == 2 && own[0].section == own[1].section == sections[i]
      && (i % 3 == 0 ==> own[0].slot == Slot("Monday", "08:00", "10:00") && own[1].slot == Slot("Wednesday", "08:00", "10:00"))
      && (i % 3 == 1 ==> own[0].slot == Slot("Tuesday", "14:00", "16:00") && own[1].slot == Slot("Thursday", "14:00", "16:00"))
      && (i % 3 == 2 ==> own[0].slot == Slot("Monday", "18:00", "20:00") && own[1].slot == Slot("Friday", "18:00", "20:00"))
      && (classrooms == [] ==> own[0].classroom == own[1].classroom == None)
      && (classrooms != [] ==> own[0].classroom == own[1].classroom == Some(classrooms[i % |classrooms|]))
  {
  }

  // ---------- Clashes ----------

  /** Two sections want one classroom at one time. */
  predicate Clash(a: Schedule, b: Schedule) {
    a.classroom.Some? && a.classroom == b.classroom && a.slot == b.slot
  }

  /** What the timetable holds for section i. */
  function Own(sections: seq<string>, classrooms: seq<string>, i: nat): seq<Schedule>
    requires i < |sections|
  {
    SectionSchedules(sections[i], ClassroomAt(classrooms, i), i % 3)
  }

  ghost predicate SectionsClash(sections: seq<string>, classrooms: seq<string>, i: nat, j: nat)
    requires i < |sections| && j < |sections|
  {
    exists a, b ::
      a in Own(sections, classrooms, i) && b in Own(sections, classrooms, j) && Clash(a, b)
  }

  ghost predicate Distinct(classrooms: seq<string>) {
    forall i, j :: 0 <= i < j < |classrooms| ==> classrooms[i] != classrooms[j]
  }

  /** The least common multiple of 3 and m. */
  function Lcm3(m: nat): nat {
    if m % 3 == 0 then m else 3 * m
  }

  lemma AtLeast(a: int, m: nat)
    requires a >= 1
    ensures a * m >= m
  {
  }

  lemma Remainder(a: nat, r: nat, m: nat)
    requires r < m
    ensures (a * m + r) % m == r
  {
    var n := a * m + r;
    var q, s := n / m, n % m;
    assert (q - a) * m == r - s by {
      assert q * m + s == n;
    }
    if q > a {
      AtLeast(q - a, m);
    } else if q < a {
      AtLeast(a - q, m);
    }
  }

  lemma MultipleOf(a: nat, m: nat)
    requires m >= 1
    ensures (a * m) % m == 0
  {
    Remainder(a, 0, m);
  }

  lemma Lcm3IsLeast(m: nat, k: nat)
    requires m >= 1 && k % 3 == 0 && k % m == 0
    ensures Lcm3(m) >= 1 && Lcm3(m) % 3 == 0 && Lcm3(m) % m == 0 && k % Lcm3(m) == 0
  {
    var q := k / m;
    assert k == q * m;
    if m % 3 != 0 {
      Coprime(q, m);
      var r := q / 3;
      assert k == r * (3 * m);
      MultipleOf(r, 3 * m);
      MultipleOf(3, m);
    }
  }

  lemma Distribute(q: nat, c: nat, d: nat)
    ensures q * (3 * c + d) == 3 * (q * c) + q * d
  {
  }

  lemma ThreeAndOne(x: nat, q: nat)
    requires (3 * x + q) % 3 == 0
    ensures q % 3 == 0
  {
  }

  lemma ThreeAndTwo(x: nat, q: nat)
    requires (3 * x + 2 * q) % 3 == 0
    ensures q % 3 == 0
  {
  }

  /** Three divides a product only if it divides a factor. */
  lemma Coprime(q: nat, m: nat)
    requires (q * m) % 3 == 0 && m % 3 != 0
    ensures q % 3 == 0
  {
    var c := m / 3;
    if m == 3 * c + 1 {
      Distribute(q, c, 1);
      ThreeAndOne(q * c, q);
    } else {
      assert m == 3 * c + 2;
      Distribute(q, c, 2);
      ThreeAndTwo(q * c, q);
    }
  }

  lemma Euclid(n: nat, m: nat)
    requires m >= 1
    ensures n == n / m * m + n % m
  {
  }

  lemma DistanceOfEquals(i: nat, j: nat, a: nat, b: nat, r: nat, m: nat)
    requires m >= 1 && i == a * m + r && j == b * m + r && i <= j
    ensures (j - i) % m == 0
  {
    var d := b - a;
    assert d * m == j - i;
    if d < 0 {
      AtLeast(-d, m);
    }
    MultipleOf(d, m);
  }

  lemma StepsOfAMultiple(i: nat, j: nat, a: nat, c: nat, r: nat, m: nat)
    requires r < m && i == a * m + r && j - i == c * m
    ensures j % m == r
  {
    assert j == (a + c) * m + r;
    Remainder(a + c, r, m);
  }

  lemma EqualModulo(i: nat, j: nat, m: nat)
    requires m >= 1 && i <= j
    ensures i % m == j % m <==> (j - i) % m == 0
  {
    Euclid(i, m);
    if i % m == j % m {
      Euclid(j, m);
      DistanceOfEquals(i, j, i / m, j / m, i % m, m);
    }
    if (j - i) % m == 0 {
      Euclid(j - i, m);
      StepsOfAMultiple(i, j, i / m, (j - i) / m, i % m, m);
    }
  }

  lemma PatternsShareNothing(p: nat, q: nat)
    requires p < 3 && q < 3
    ensures (exists a, b :: a in Pattern(p) && b in Pattern(q) && a == b) <==> p == q
  {
    if p == q {
      assert Pattern(p)[0] in Pattern(q);
    }
  }

  /** With m distinct classrooms, two sections clash exactly when lcm(3, m) divides the distance of their indices. */
  lemma SectionsClashExactlyWhen(sections: seq<string>, classrooms: seq<string>, i: nat, j: nat)
    requires Distinct(classrooms) && |classrooms| >= 1 && i <= j < |sections|
    ensures SectionsClash(sections, classrooms, i, j) <==> (j - i) % Lcm3(|classrooms|) == 0
  {
    var m := |classrooms|;
    EqualModulo(i, j, 3);
    EqualModulo(i, j, m);
    ClashesByTurn(sections, classrooms, i, j);
    if i % 3 == j % 3 && i % m == j % m {
      Lcm3IsLeast(m, j - i);
    } else if (j - i) % Lcm3(m) == 0 {
      DividesThrough(m, j - i);
    }
  }

  lemma Regrouped(q: nat, c: nat)
    ensures q * (3 * c) == (q * c) * 3 && q * (3 * c) == (q * 3) * c
  {
  }

  lemma DividesThrough(m: nat, k: nat)
    requires m >= 1 && k % Lcm3(m) == 0
    ensures k % 3 == 0 && k % m == 0
  {
    var l := Lcm3(m);
    var q := k / l;
    Euclid(k, l);
    if m % 3 == 0 {
      Regrouped(q, m / 3);
      MultipleOf(q * (m / 3), 3);
    } else {
      Regrouped(q, m);
      MultipleOf(q * m, 3);
      MultipleOf(q * 3, m);
    }
  }

  lemma ClashesByTurn(sections: seq<string>, classrooms: seq<string>, i: nat, j: nat)
    requires Distinct(classrooms) && |classrooms| >= 1 && i < |sections| && j < |sections|
    ensures SectionsClash(sections, classrooms, i, j) <==> i % 3 == j % 3 && i % |classrooms| == j % |classrooms|
  {
    var a, b := Own(sections, classrooms, i), Own(sections, classrooms, j);
    if i % 3 == j % 3 && i % |classrooms| == j % |classrooms| {
      assert a[0] in a && b[0] in b && Clash(a[0], b[0]);
    }
    if SectionsClash(sections, classrooms, i, j) {
      var x, y :| x in a && y in b && Clash(x, y);
      assert x.slot in Pattern(i % 3) && y.slot in Pattern(j % 3);
      PatternsShareNothing(i % 3, j % 3);
    }
  }
}
