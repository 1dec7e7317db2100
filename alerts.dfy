/** The alert log (most recent first), the live status snapshot and the
    hundred records the log is seeded with when the server starts. */
module Alerts {
  import opened Wrappers

  /** One alert record, as the dashboard receives it. */
  datatype Record = Record(id: int, time: string, date: string, kind: string, loc: string,
                           zone: string, conf: int, status: string)

  /** The live status snapshot polled by the dashboard. */
  datatype MonitorState = MonitorState(location: string, status: string, action: string, time: string,
                                       conf: int, kind: Option<string>)

  const Warning := "경고"
  const Normal := "정상"
  const ActionDetected := "위반 행위 감지됨"
  const ActionMonitoring := "모니터링 중..."
  const RecordDate := "2025-01-03"
  const LiveLocation := "AI 감지구역"
  const LiveZone := "Live"
  const SeedZone := "Record"

  const InitialMonitor := MonitorState("공학관", Normal, ActionMonitoring, "-", 0, None)

  /** Seconds that must pass, strictly, between two announcements or log entries. */
  const Cooldown: real := 3.0

  // ---------------------------------------------------------------------------
  // Status snapshot

  /** The snapshot after a frame whose violation label is `kind`: a warning with
      the label and the sampled confidence, or back to normal with confidence 0.
      Location and time are never touched. */
  function Publish(m: MonitorState, kind: Option<string>, conf: int): (r: MonitorState)
    ensures r.location == m.location && r.time == m.time
    ensures r.status == Normal <==> kind.None?
    ensures r.kind == kind
    ensures kind.Some? ==> r.status == Warning && r.action == ActionDetected && r.conf == conf
    ensures kind.None? ==> r.action == ActionMonitoring && r.conf == 0
  {
    if kind.Some? then m.(status := Warning, kind := kind, action := ActionDetected, conf := conf)
    else m.(status := Normal, kind := None, action := ActionMonitoring, conf := 0)
  }

  // ---------------------------------------------------------------------------
  // Log shape

  /** The record made for a frame whose manual violation is due to be logged:
      a warning at the live detection area, stamped with the wall-clock time. */
  function LiveRecord(id: int, clock: string, kind: string, conf: int): (r: Record)
    ensures r.id == id && r.kind == kind && r.conf == conf && r.time == clock
    ensures r.status == Warning && r.loc == LiveLocation && r.zone == LiveZone
    ensures r.date == RecordDate
  {
    Record(id, clock, RecordDate, kind, LiveLocation, LiveZone, conf, Warning)
  }

  /** Ids run from the length of the log down to 1, newest first. */
  ghost predicate CountsDown(logs: seq<Record>) {
    forall i :: 0 <= i < |logs| ==> logs[i].id == |logs| - i
  }

  /** Every id is larger than every id after it, so no id appears twice. */
  ghost predicate Descending(logs: seq<Record>) {
    forall i, j :: 0 <= i < j < |logs| ==> logs[i].id > logs[j].id
  }

  lemma CountsDownDescending(logs: seq<Record>)
    requires CountsDown(logs)
    ensures Descending(logs)
    ensures forall i :: 0 <= i < |logs| ==> logs[i].id >= 1
  {
  }

  /** Putting the record with the next id at the front keeps the countdown. */
  lemma PrependCountsDown(logs: seq<Record>, r: Record)
    requires CountsDown(logs) && r.id == |logs| + 1
    ensures CountsDown([r] + logs)
  {
  }

  /** Consecutive log instants (newest first) lie more than the cooldown apart. */
  ghost predicate Spaced(ts: seq<real>) {
    forall i :: 0 <= i < |ts| - 1 ==> ts[i] > ts[i + 1] + Cooldown
  }

  /** Any two log instants, not only neighbours, lie more than the cooldown
      apart, and the later one is the newer one. */
  lemma {:induction false} SpacedApart(ts: seq<real>, i: int, j: int)
    requires Spaced(ts) && 0 <= i < j < |ts|
    ensures ts[i] > ts[j] + Cooldown
    decreases j - i
  {
    if j > i + 1 {
      SpacedApart(ts, i + 1, j);
    }
  }

  // ---------------------------------------------------------------------------
  // Seeding

  /** One line of the seed table: a violation label, a place, and how many
      records of it to create. */
  datatype SeedGroup = SeedGroup(kind: string, loc: string, count: nat)

  const InitialData: seq<SeedGroup> := [
    SeedGroup("흡연 감지", "공학관", 35),
    SeedGroup("무단 투기", "학생회관", 30),
    SeedGroup("불법 주차", "기숙사", 15),
    SeedGroup("전단지 부착", "정문", 20)
  ]

  const SeedSize := 100

  function TotalCount(groups: seq<SeedGroup>): nat {
    if groups == [] then 0 else groups[0].count + TotalCount(groups[1..])
  }

  /** The group the `n`-th seeded record (counting from 0) comes from. */
  function GroupAt(groups: seq<SeedGroup>, n: nat): (g: SeedGroup)
    requires n < TotalCount(groups)
    ensures g in groups
  {
    if n < groups[0].count then groups[0] else GroupAt(groups[1..], n - groups[0].count)
  }

  /** The record with id `id` as seeded, given the confidence drawn for it. */
  function SeedRecord(id: int, conf: int): Record
    requires 1 <= id <= SeedSize
  {
    assert TotalCount(InitialData) == SeedSize by { SeedTableSize(); }
    var g := GroupAt(InitialData, id - 1);
    Record(id, "10:00", RecordDate, g.kind, g.loc, SeedZone, conf, Warning)
  }

  lemma SeedTableSize()
    ensures TotalCount(InitialData) == SeedSize
  {
  }

  lemma {:induction false} TotalCountSnoc(groups: seq<SeedGroup>, k: nat)
    requires k < |groups|
    ensures TotalCount(groups[..k + 1]) == TotalCount(groups[..k]) + groups[k].count
  {
    if k > 0 {
      assert groups[..k + 1][1..] == groups[1..][..k];
      assert groups[..k][1..] == groups[1..][..k - 1];
      TotalCountSnoc(groups[1..], k - 1);
    }
  }

  lemma {:induction false} TotalCountPrefix(groups: seq<SeedGroup>, k: nat)
    requires k <= |groups|
    ensures TotalCount(groups[..k]) + TotalCount(groups[k..]) == TotalCount(groups)
  {
    if k > 0 {
      assert groups[..k][1..] == groups[1..][..k - 1];
      assert groups[k..] == groups[1..][k - 1..];
      TotalCountPrefix(groups[1..], k - 1);
    }
  }

  /** The records of group `k` occupy the positions right after those of the
      groups before it: the nested seeding loop walks GroupAt in order. */
  lemma {:induction false} GroupAtBlock(groups: seq<SeedGroup>, k: nat, j: nat)
    requires k < |groups| && j < groups[k].count
    ensures TotalCount(groups[..k]) + j < TotalCount(groups)
    ensures GroupAt(groups, TotalCount(groups[..k]) + j) == groups[k]
  {
    TotalCountPrefix(groups, k);
    assert groups[k..] == [groups[k]] + groups[k + 1..];
    if k > 0 {
      assert groups[..k][1..] == groups[1..][..k - 1];
      GroupAtBlock(groups[1..], k - 1, j);
    }
  }

  /** Seeded ids 1-35 are smoking records, 36-65 littering, 66-80 parking and
      81-100 posting, each at its group's place. */
  lemma SeedGroups(id: int)
    requires 1 <= id <= SeedSize
    ensures var g := GroupAt(InitialData, id - 1);
      (id <= 35 ==> g == InitialData[0]) &&
      (36 <= id <= 65 ==> g == InitialData[1]) &&
      (66 <= id <= 80 ==> g == InitialData[2]) &&
      (81 <= id ==> g == InitialData[3])
  {
    SeedTableSize();
    assert InitialData[..0] == [];
    TotalCountSnoc(InitialData, 0);
    TotalCountSnoc(InitialData, 1);
    TotalCountSnoc(InitialData, 2);
    if id <= 35 {
      GroupAtBlock(InitialData, 0, id - 1);
    } else if id <= 65 {
      GroupAtBlock(InitialData, 1, id - 36);
    } else if id <= 80 {
      GroupAtBlock(InitialData, 2, id - 66);
    } else {
      GroupAtBlock(InitialData, 3, id - 81);
    }
  }

  /** The seed log: ids 100 down to 1, each record carrying its group's label and
      place and the confidence drawn for it (`confs[k]` is the draw for id k+1). */
  method SeedLogs(confs: seq<int>) returns (logs: seq<Record>, counter: int)
    requires |confs| == SeedSize
    ensures counter == SeedSize + 1 && |logs| == SeedSize
    ensures forall i :: 0 <= i < SeedSize ==> logs[i] == SeedRecord(SeedSize - i, confs[SeedSize - 1 - i])
  {
    SeedTableSize();
    forall k | 0 <= k <= |InitialData|
      ensures TotalCount(InitialData[..k]) <= SeedSize
    {
      TotalCountPrefix(InitialData, k);
    }
    logs := [];
    counter := 1;
    var g := 0;
    while g < |InitialData|
      invariant 0 <= g <= |InitialData|
      invariant counter == TotalCount(InitialData[..g]) + 1 <= SeedSize + 1
      invariant |logs| == counter - 1
      invariant forall k :: 0 <= k < |logs| ==> logs[k] == SeedRecord(k + 1, confs[k])
    {
      var group := InitialData[g];
      TotalCountPrefix(InitialData, g);
      var j := 0;
      while j < group.count
        invariant 0 <= j <= group.count
        invariant counter == TotalCount(InitialData[..g]) + j + 1
        invariant |logs| == counter - 1
        invariant forall k :: 0 <= k < |logs| ==> logs[k] == SeedRecord(k + 1, confs[k])
      {
        GroupAtBlock(InitialData, g, j);
        logs := logs + [Record(counter, "10:00", RecordDate, group.kind, group.loc, SeedZone, confs[counter - 1], Warning)];
        counter := counter + 1;
        j := j + 1;
      }
      TotalCountSnoc(InitialData, g);
      g := g + 1;
    }
    assert InitialData[..g] == InitialData;
    // fake_logs.reverse()
    logs := seq(|logs|, i requires 0 <= i < |logs| => logs[|logs| - 1 - i]);
  }
}
