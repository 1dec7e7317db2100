/** The detection loop's per-frame decisions over the process-wide state it
    updates: the manual flags, the shared announcement/log timer, the alert
    log with its id counter and running total, and the status snapshot. */
module Producer {
  import opened Wrappers
  import opened Geometry
  import opened Violations
  import opened Redaction
  import opened Alerts

  /** What one frame of the loop decides. */
  datatype Report =
    | Stopped   // the quit key ends the loop before the frame is processed
    | Processed(offender: int, decisions: seq<Decision>, updateType: Option<ViolationType>,
                banner: string, zone: Option<Box>, cues: seq<Cue>, logged: bool)

  /** One frame's inputs: the raw key value, the pose model's skeletons, the
      clock reading, the frame size, the sampled confidence and the formatted
      wall-clock time. */
  datatype Frame = Frame(key: int, batch: seq<Skeleton>, now: real, width: int, height: int,
                         conf: int, clock: string)

  predicate InConfRange(c: int) {
    97 <= c <= 99
  }

  class Pipeline {
    var flags: Flags
    /** Time of the last smoking announcement or manual log entry. */
    var lastAudioTime: real
    var logs: seq<Record>
    var counter: int
    var total: int
    var monitor: MonitorState
    /** The clock readings at which the live records (all records but the
        seeded ones) were logged, newest first. */
    ghost var appendTimes: seq<real>

    ghost predicate Valid()
      reads this
    {
      AtMostOne(flags) &&
      CountsDown(logs) && counter == |logs| + 1 && total == |logs| &&
      (forall i :: 0 <= i < |logs| ==> InConfRange(logs[i].conf)) &&
      monitor.location == InitialMonitor.location && monitor.time == InitialMonitor.time &&
      |appendTimes| + SeedSize == |logs| && Spaced(appendTimes) &&
      (appendTimes != [] ==> appendTimes[0] <= lastAudioTime)
    }

    /** The state at module load: seeded log, counter 101, total 100, idle flags. */
    constructor (seedConfs: seq<int>)
      requires |seedConfs| == SeedSize && forall i :: 0 <= i < |seedConfs| ==> InConfRange(seedConfs[i])
      ensures Valid()
      ensures flags == Idle && lastAudioTime == 0.0 && monitor == InitialMonitor
      ensures |logs| == SeedSize && counter == SeedSize + 1 && total == SeedSize
      ensures forall i :: 0 <= i < SeedSize ==> logs[i] == SeedRecord(SeedSize - i, seedConfs[SeedSize - 1 - i])
    {
      var seeded, next := SeedLogs(seedConfs);
      flags := Idle;
      lastAudioTime := 0.0;
      logs := seeded;
      counter := next;
      total := 100;
      monitor := InitialMonitor;
      appendTimes := [];
    }

    /** The end of the loop body: the smoking announcement, the status
        snapshot and the log entry, with the announcement and the log sharing
        one strict cooldown timer. */
    method Sync(u: Option<ViolationType>, manual: bool, now: real, conf: int, clock: string)
      returns (announce: bool, logged: bool)
      requires Valid() && InConfRange(conf)
      requires manual <==> u.Some? && u.value != Smoking
      modifies this
      ensures Valid() && flags == old(flags)
      ensures var due := now - old(lastAudioTime) > Cooldown;
        && announce == (u == Some(Smoking) && due)
        && logged == (manual && due)
        && monitor == Publish(old(monitor), LabelOf(u), conf)
        && logs == (if logged then [LiveRecord(old(counter), clock, Label(u.value), conf)] + old(logs) else old(logs))
        && counter == old(counter) + (if logged then 1 else 0)
        && total == old(total) + (if logged then 1 else 0)
        && lastAudioTime == (if u.Some? && due then now else old(lastAudioTime))
        && appendTimes == (if logged then [now] + old(appendTimes) else old(appendTimes))
    {
      announce, logged := false, false;
      if u == Some(Smoking) && now - lastAudioTime > Cooldown {
        announce := true;
        lastAudioTime := now;
      }
      if u.Some? {
        monitor := Publish(monitor, LabelOf(u), conf);
        if manual && now - lastAudioTime > Cooldown {
          var r := LiveRecord(counter, clock, Label(u.value), conf);
          PrependCountsDown(logs, r);
          PrependSpaced(appendTimes, now);
          logs := [r] + logs;
          counter := counter + 1;
          total := total + 1;
          appendTimes := [now] + appendTimes;
          lastAudioTime := now;
          logged := true;
        }
      } else {
        monitor := Publish(monitor, None, 0);
      }
    }

    /** What one processed frame does, from the state before it to the state
        after it: the flags after the key, the offender, the redaction
        decisions, the violation type, the banner, the clean zone, the
        announcements, the snapshot, and the log with its counter, total, timer
        and log instants. */
    twostate predicate FrameEffect(code: int, batch: seq<Skeleton>, now: real, w: int, h: int, conf: int,
                                   clock: string, out: Report)
      reads this
    {
      var f := ApplyKey(old(flags), code);
      var smoker := FirstSmoker(batch);
      var u := UpdateType(f, smoker != -1);
      var offender := SelectOffender(f, smoker, |batch|);
      var due := now - old(lastAudioTime) > Cooldown;
      var logged := Any(f) && due;
      && flags == f
      && out.Processed?
      && out.offender == offender
      && Redacted(batch, offender, EventActive(f, smoker != -1), w, h, out.decisions)
      && out.updateType == u
      && out.banner == Banner(u)
      && out.zone == (if u == Some(FlyerPosting) then Some(CleanZone(w, h)) else None)
      && out.cues == FrameCues(code, u == Some(Smoking) && due)
      && monitor == Publish(old(monitor), LabelOf(u), conf)
      && out.logged == logged
      && logs == (if logged then [LiveRecord(old(counter), clock, Label(u.value), conf)] + old(logs) else old(logs))
      && counter == old(counter) + (if logged then 1 else 0)
      && total == old(total) + (if logged then 1 else 0)
      && lastAudioTime == (if u.Some? && due then now else old(lastAudioTime))
      && appendTimes == (if logged then [now] + old(appendTimes) else old(appendTimes))
    }

    /** The loop body for a frame whose key is not the quit key: commands,
        smoking scan, offender, redaction, precedence and synchronisation. */
    method Process(code: int, batch: seq<Skeleton>, now: real, w: int, h: int, conf: int, clock: string)
      returns (out: Report)
      requires Valid() && InConfRange(conf) && code != KeyQuit
      modifies this
      ensures Valid()
      ensures FrameEffect(code, batch, now, w, h, conf, clock, out)
    {
      flags := ApplyKey(flags, code);
      var smoking, smoker := SmokingScan(batch);
      var offender := SelectOffender(flags, smoker, |batch|);
      var decisions := Redact(batch, offender, EventActive(flags, smoking), w, h);
      var u := UpdateType(flags, smoking);
      var zone := if u == Some(FlyerPosting) then Some(CleanZone(w, h)) else None;
      var announce, logged := Sync(u, Any(flags), now, conf, clock);
      var cues := FrameCues(code, announce);
      out := Processed(offender, decisions, u, Banner(u), zone, cues, logged);
    }

    /** One pass of the loop: the quit key stops the loop before the frame is
        processed; any other key goes through Process. Either way the old log
        stays, unchanged, behind any new record. */
    method Step(fr: Frame) returns (out: Report)
      requires Valid() && InConfRange(fr.conf)
      modifies this
      ensures Valid()
      ensures out.Stopped? <==> KeyCode(fr.key) == KeyQuit
      ensures out.Stopped? ==> unchanged(this)
      ensures !out.Stopped? ==> FrameEffect(KeyCode(fr.key), fr.batch, fr.now, fr.width, fr.height, fr.conf, fr.clock, out)
      ensures EndsWith(logs, old(logs))
    {
      var code := KeyCode(fr.key);
      if code == KeyQuit {
        return Stopped;
      }
      out := Process(code, fr.batch, fr.now, fr.width, fr.height, fr.conf, fr.clock);
    }

    /** The capture loop over a finite stream of frames: it processes frames in
        order until the quit key or the end of the stream (a failed read), and
        only ever puts new records in front of the log. */
    method Run(frames: seq<Frame>) returns (processed: nat)
      requires Valid()
      requires forall i :: 0 <= i < |frames| ==> InConfRange(frames[i].conf)
      modifies this
      ensures Valid()
      ensures processed <= |frames|
      ensures forall i :: 0 <= i < processed ==> KeyCode(frames[i].key) != KeyQuit
      ensures processed < |frames| ==> KeyCode(frames[processed].key) == KeyQuit
      ensures EndsWith(logs, old(logs))
    {
      processed := 0;
      while processed < |frames|
        invariant processed <= |frames|
        invariant Valid()
        invariant forall k :: 0 <= k < processed ==> KeyCode(frames[k].key) != KeyQuit
        invariant EndsWith(logs, old(logs))
      {
        ghost var before := logs;
        assert KeyCode(frames[processed].key) != KeyQuit ==>
          forall k :: 0 <= k < processed + 1 ==> KeyCode(frames[k].key) != KeyQuit;
        var out := Step(frames[processed]);
        if out.Stopped? {
          break;
        }
        EndsWithTrans(logs, before, old(logs));
        processed := processed + 1;
      }
    }
  }

  /** The announcements of one frame: the key's command cue, then the smoking
      cue when the smoking announcement is due. */
  function FrameCues(code: int, smokingDue: bool): (r: seq<Cue>)
    ensures |r| <= 2
    ensures CommandCues(code) <= r
    ensures |r| == |CommandCues(code)| + (if smokingDue then 1 else 0)
    ensures CueSmoking in r <==> smokingDue
    ensures smokingDue ==> Scenario(r[|r| - 1]) == "SMOKING"
    ensures r != [] <==> IsCommand(code) || smokingDue
  {
    CommandCues(code) + (if smokingDue then [CueSmoking] else [])
  }

  /** `s` ends with all of `t`: nothing of `t` was altered or removed. */
  ghost predicate EndsWith<T>(s: seq<T>, t: seq<T>) {
    |t| <= |s| && s[|s| - |t|..] == t
  }

  lemma EndsWithTrans<T>(a: seq<T>, b: seq<T>, c: seq<T>)
    requires EndsWith(a, b) && EndsWith(b, c)
    ensures EndsWith(a, c)
  {
  }

  /** A new instant past the cooldown from the newest one keeps the log spaced. */
  lemma PrependSpaced(ts: seq<real>, t: real)
    requires Spaced(ts) && (ts != [] ==> t > ts[0] + Cooldown)
    ensures Spaced([t] + ts)
  {
  }
}
