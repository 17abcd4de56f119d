/**
 * Scheduled block windows (streamlit_app.py, the scheduling form and the crontab
 * manager): a window is two crontab jobs sharing one id, `_start` running the
 * re-entry point with `disable` and `_end` running it with `enable`, recorded in
 * the schedules table once the crontab is written.
 */
module Schedule {
  import opened Common
  import opened Text
  import opened Storage
  import opened Inventory
  import opened SnmpAction

  // ------------------------------------------------------------ time

  /** Naive `datetime`s are counted in microseconds from 0001-01-01 00:00:00. */
  const Second: nat := 1_000_000
  const Minute: nat := 60 * Second
  const Hour: nat := 60 * Minute
  const Day: nat := 24 * Hour

  /** `datetime.max` is the last microsecond of 9999-12-31, day 3652059 counting from 1. */
  const Span: nat := 3_652_059 * Day

  /** A representable `datetime`. */
  type Moment = t: int | 0 <= t < Span

  /** `replace(second=0, microsecond=0)`: the start of the moment's minute. */
  function Truncate(t: Moment): (r: Moment)
    ensures r % Minute == 0 && r <= t < r + Minute
  {
    t - t % Minute
  }

  /** The window a schedule runs over; `adjusted` is set when the end was moved. */
  datatype Window = Window(start: Moment, end: Moment, adjusted: bool)

  /**
   * Both ends truncated to the minute; an end not after the start becomes one minute
   * after it. `None` when that minute lies past `datetime.max` (`OverflowError`).
   */
  function WindowOf(start: Moment, end: Moment): (r: Option<Window>)
    ensures r.Some? ==> r.value.start < r.value.end && r.value.start % Minute == 0 && r.value.end % Minute == 0
    ensures r.None? <==> Truncate(end) <= Truncate(start) && Truncate(start) == Span - Minute
  {
    var s, e := Truncate(start), Truncate(end);
    if e <= s then
      LastMinute(s);
      if s + Minute < Span then Some(Window(s, s + Minute, true)) else None
    else Some(Window(s, e, false))
  }

  /** The minute after an aligned moment is aligned, and only the last minute has no successor. */
  lemma LastMinute(s: Moment)
    requires s % Minute == 0
    ensures (s + Minute) % Minute == 0
    ensures s + Minute < Span <==> s != Span - Minute
  {
    var q := s / Minute;
    assert s == q * Minute;
    assert Span == 5258964960 * Minute;
    assert s + Minute == (q + 1) * Minute;
    if s + Minute >= Span {
      assert q * Minute < 5258964960 * Minute;
      assert (q + 1) * Minute >= 5258964960 * Minute;
      assert q == 5258964959;
    }
  }

  /**
   * The window starts in the minute of the requested start; it ends in the minute of
   * the requested end when that minute is later, else one minute after the start.
   */
  lemma WindowBounds(start: Moment, end: Moment)
    requires WindowOf(start, end).Some?
    ensures var w := WindowOf(start, end).value;
      && w.start <= start < w.start + Minute
      && (w.adjusted <==> Truncate(end) <= Truncate(start))
      && (!w.adjusted ==> w.end <= end < w.end + Minute)
      && (w.adjusted ==> w.end == w.start + Minute && end < w.end)
  {
  }

  /** Truncation keeps a minute-aligned moment, so building a window from a window gives it back. */
  lemma WindowStable(start: Moment, end: Moment)
    requires WindowOf(start, end).Some?
    ensures var w := WindowOf(start, end).value;
      WindowOf(w.start, w.end) == Some(w.(adjusted := false))
  {
    var w := WindowOf(start, end).value;
    assert Truncate(w.start) == w.start && Truncate(w.end) == w.end;
  }

  /** The schedule of a crontab job: `minute hour day month *`. */
  datatype CronTime = CronTime(minute: nat, hour: nat, day: nat, month: nat)

  /** The minutes from 0001-01-01 00:00 to the moment. */
  function Minutes(t: Moment): nat {
    t / Minute
  }

  /**
   * The crontab fields of a moment. `calendar` turns a day count into the day of the
   * month and the month; the clock fields come from the time of day.
   */
  function CronTimeOf(t: Moment, calendar: nat -> (nat, nat)): (c: CronTime)
    ensures c.minute < 60 && c.hour < 24
    ensures (c.day, c.month) == calendar(t / Day)
  {
    var dm := calendar(t / Day);
    CronTime(Minutes(t) % 60, (Minutes(t) / 60) % 24, dm.0, dm.1)
  }

  /** The clock fields give back the minute of the day. */
  lemma CronClock(t: Moment, calendar: nat -> (nat, nat))
    ensures var c := CronTimeOf(t, calendar);
      Minutes(t) % 1440 == c.hour * 60 + c.minute
  {
    var m := Minutes(t);
    var q, r := m / 60, m % 60;
    var p, s := q / 24, q % 24;
    assert q == p * 24 + s;
    assert m == p * 1440 + (s * 60 + r);
    assert 0 <= s * 60 + r < 1440;
  }

  // ------------------------------------------------------------ crontab

  /** A crontab entry: its comment tag, its time and the re-entry command it runs. */
  datatype CronJob = CronJob(comment: string, time: CronTime, command: Args)

  /** The tag prefix of every job this system creates. */
  const Tag := "ogmr_"

  function StartTag(uid: string): string {
    Tag + uid + "_start"
  }

  function EndTag(uid: string): string {
    Tag + uid + "_end"
  }

  /** The two tags of one window always differ, and both carry the prefix. */
  lemma TagsDiffer(uid: string)
    ensures StartTag(uid) != EndTag(uid)
    ensures StartsWith(StartTag(uid), Tag) && StartsWith(EndTag(uid), Tag)
  {
    var n := |Tag + uid|;
    assert StartTag(uid)[n + 1] == 's' && EndTag(uid)[n + 1] == 'e';
    assert StartTag(uid)[..|Tag|] == Tag && EndTag(uid)[..|Tag|] == Tag;
  }

  /** The user's crontab: the jobs loaded and added so far, and the jobs last installed. */
  class CronTab {
    var jobs: seq<CronJob>
    var installed: seq<CronJob>

    /** `CronTab(user=True)`: the installed jobs, read. */
    constructor (current: seq<CronJob>)
      ensures jobs == current && installed == current
    {
      jobs := current;
      installed := current;
    }

    /** `cron.new(...)` followed by `setall(...)`: one job more, not yet installed. */
    method Add(job: CronJob)
      modifies this
      ensures jobs == old(jobs) + [job] && installed == old(installed)
    {
      jobs := jobs + [job];
    }

    /** `cron.write()`: installs the jobs; `writable` says whether the crontab accepts them. */
    method Write(writable: bool) returns (written: bool)
      modifies this
      ensures written == writable && jobs == old(jobs)
      ensures installed == (if writable then jobs else old(installed))
    {
      written := writable;
      if writable {
        installed := jobs;
      }
    }

    /** `cron.remove(item)` for every job whose comment starts with the prefix. */
    method RemoveTagged()
      modifies this
      ensures jobs == Untagged(old(jobs)) && installed == old(installed)
    {
      var kept := [];
      for i := 0 to |jobs|
        invariant kept == Untagged(jobs[..i])
      {
        assert jobs[..i + 1][..i] == jobs[..i];
        if !StartsWith(jobs[i].comment, Tag) {
          kept := kept + [jobs[i]];
        }
      }
      assert jobs[..|jobs|] == jobs;
      jobs := kept;
    }
  }

  /** The jobs this system created: a comment with the prefix, in crontab order. */
  function Tagged(jobs: seq<CronJob>): seq<CronJob> {
    if jobs == [] then []
    else Tagged(jobs[..|jobs| - 1]) + (if StartsWith(jobs[|jobs| - 1].comment, Tag) then [jobs[|jobs| - 1]] else [])
  }

  /** The other jobs, in crontab order. */
  function Untagged(jobs: seq<CronJob>): seq<CronJob> {
    if jobs == [] then []
    else Untagged(jobs[..|jobs| - 1]) + (if StartsWith(jobs[|jobs| - 1].comment, Tag) then [] else [jobs[|jobs| - 1]])
  }

  /**
   * Removal keeps exactly the jobs without the prefix, in their order, and lists
   * exactly the others: together they account for every job.
   */
  lemma {:induction false} TaggedSplit(jobs: seq<CronJob>)
    ensures forall j :: j in Untagged(jobs) <==> j in jobs && !StartsWith(j.comment, Tag)
    ensures forall j :: j in Tagged(jobs) <==> j in jobs && StartsWith(j.comment, Tag)
    ensures |Tagged(jobs)| + |Untagged(jobs)| == |jobs|
  {
    if jobs != [] {
      var init, last := jobs[..|jobs| - 1], jobs[|jobs| - 1];
      TaggedSplit(init);
      assert jobs == init + [last];
      assert forall j :: j in jobs <==> j in init || j == last;
      assert Tagged(jobs) == Tagged(init) + (if StartsWith(last.comment, Tag) then [last] else []);
      assert Untagged(jobs) == Untagged(init) + (if StartsWith(last.comment, Tag) then [] else [last]);
    }
  }

  /** Jobs without the prefix pass through removal unchanged, and removal twice removes nothing more. */
  lemma {:induction false} UntaggedKeeps(jobs: seq<CronJob>)
    requires forall i :: 0 <= i < |jobs| ==> !StartsWith(jobs[i].comment, Tag)
    ensures Untagged(jobs) == jobs && Tagged(jobs) == []
  {
    if jobs != [] {
      UntaggedKeeps(jobs[..|jobs| - 1]);
      assert jobs == jobs[..|jobs| - 1] + [jobs[|jobs| - 1]];
    }
  }

  lemma UntaggedIdempotent(jobs: seq<CronJob>)
    ensures Untagged(Untagged(jobs)) == Untagged(jobs)
  {
    TaggedSplit(jobs);
    var u := Untagged(jobs);
    forall i | 0 <= i < |u| ensures !StartsWith(u[i].comment, Tag) {
      assert u[i] in u;
    }
    UntaggedKeeps(u);
  }

  /** The jobs whose comment is one of the window's two tags. */
  function ReadBack(jobs: seq<CronJob>, uid: string): (r: nat)
    ensures r <= |jobs|
  {
    if jobs == [] then 0
    else
      var c := jobs[|jobs| - 1].comment;
      ReadBack(jobs[..|jobs| - 1], uid) + (if c == StartTag(uid) || c == EndTag(uid) then 1 else 0)
  }

  lemma {:induction false} ReadBackAppend(jobs: seq<CronJob>, more: seq<CronJob>, uid: string)
    ensures ReadBack(jobs + more, uid) == ReadBack(jobs, uid) + ReadBack(more, uid)
  {
    if more == [] {
      assert jobs + more == jobs;
    } else {
      ReadBackAppend(jobs, more[..|more| - 1], uid);
      assert (jobs + more)[..|jobs + more| - 1] == jobs + more[..|more| - 1];
      assert (jobs + more)[|jobs + more| - 1] == more[|more| - 1];
    }
  }

  // ------------------------------------------------------------ the form

  /** What the scheduling form submits. */
  datatype Request = Request(ip: string, community: string, version: int, mac: string,
                             ports: string, start: Moment, end: Moment)

  /** The `_start` job disables the ports at the start; the `_end` job enables them at the end. */
  function WindowJobs(req: Request, uid: string, w: Window, calendar: nat -> (nat, nat)): (r: seq<CronJob>)
    ensures |r| == 2 && r[0].comment == StartTag(uid) && r[1].comment == EndTag(uid)
    ensures r[0].command.action == Disable && r[1].command.action == Enable
    ensures r[0].command.(action := Enable) == r[1].command
  {
    var args := Args(Disable, req.ip, req.community, PortsCsv(req.ports), req.version);
    [CronJob(StartTag(uid), CronTimeOf(w.start, calendar), args),
     CronJob(EndTag(uid), CronTimeOf(w.end, calendar), args.(action := Enable))]
  }

  /** Both jobs are handed the ports the form named, in the same order. */
  lemma JobsKeepPorts(req: Request, uid: string, w: Window, calendar: nat -> (nat, nat))
    ensures var js := WindowJobs(req, uid, w, calendar);
      PortList(js[0].command.ports) == PortList(req.ports) && PortList(js[1].command.ports) == PortList(req.ports)
  {
    PortsCsvRoundTrip(req.ports);
  }

  /**
   * The machine a selected address belongs to: the id of the first schedulable
   * machine with exactly that address, or `""` when there is no address or no such
   * machine.
   */
  function MachineFor(valid: seq<Row>, mac: string): (id: string)
    ensures mac == "" ==> id == ""
    ensures mac != "" && (forall i :: 0 <= i < |valid| ==> Get(valid[i], "mac") != mac) ==> id == ""
    ensures forall i :: (0 <= i < |valid| && mac != "" && Get(valid[i], "mac") == mac &&
                         forall k :: 0 <= k < i ==> Get(valid[k], "mac") != mac) ==> id == Get(valid[i], "id_maquina")
  {
    if mac == "" then "" else FirstMachineFor(valid, mac, 0)
  }

  /** The scan `for m in valid: if m.get("mac") == mac: ...; break`, from position `from` on. */
  function FirstMachineFor(valid: seq<Row>, mac: string, from: nat): (id: string)
    requires from <= |valid|
    ensures (forall i :: from <= i < |valid| ==> Get(valid[i], "mac") != mac) ==> id == ""
    ensures forall i :: (from <= i < |valid| && Get(valid[i], "mac") == mac &&
                         forall k :: from <= k < i ==> Get(valid[k], "mac") != mac) ==> id == Get(valid[i], "id_maquina")
    decreases |valid| - from
  {
    if from == |valid| then ""
    else if Get(valid[from], "mac") == mac then Get(valid[from], "id_maquina")
    else FirstMachineFor(valid, mac, from + 1)
  }

  /** The schedules-table row of a window: its uid, the address, the machine and the two ends. */
  datatype Entry = Entry(uid: string, mac: string, machine: string, start: string, end: string)

  function EntryRecord(e: Entry): Record {
    map["uid" := Str(e.uid), "id_sala" := Str(""), "id_switch" := Str(""), "mac" := Str(e.mac),
        "id_maquina" := Str(e.machine), "data_inicio" := Str(e.start), "data_fim" := Str(e.end)]
  }

  /** How a submission ends. */
  datatype Outcome = Overflow | WriteFailed(window: Window) | Recorded(window: Window, confirmed: bool)

  /**
   * The submission: the window, its two jobs added and the crontab written; only
   * after a successful write is the row appended, and then the read-back of the two
   * tags always finds both, since it looks at the jobs just added.
   */
  method Submit(store: RecordStore, cron: CronTab, writable: bool, req: Request, uid: string, valid: seq<Row>,
                calendar: nat -> (nat, nat), isoformat: Moment -> string)
    returns (outcome: Outcome)
    requires store.Valid()
    modifies store, cron
    ensures store.Valid()
    ensures var w := WindowOf(req.start, req.end);
      && (w.None? ==> outcome == Overflow && store.tables == old(store.tables) && cron.jobs == old(cron.jobs)
                      && cron.installed == old(cron.installed))
      && (w.Some? ==> cron.jobs == old(cron.jobs) + WindowJobs(req, uid, w.value, calendar))
      && (w.Some? && !writable ==> outcome == WriteFailed(w.value) && store.tables == old(store.tables)
                                   && cron.installed == old(cron.installed))
      && (w.Some? && writable ==>
            && outcome == Recorded(w.value, true)
            && cron.installed == cron.jobs
            && store.tables == old(store.tables)[Schedules := old(store.Table(Schedules)) +
                 [NormalizeRow(Entities[Schedules],
                    EntryRecord(Entry(uid, req.mac, MachineFor(valid, req.mac), isoformat(w.value.start), isoformat(w.value.end))))]])
  {
    var w := WindowOf(req.start, req.end);
    if w.None? {
      return Overflow;
    }
    var jobs := WindowJobs(req, uid, w.value, calendar);
    ghost var before := cron.jobs;
    cron.Add(jobs[0]);
    cron.Add(jobs[1]);
    assert cron.jobs == before + jobs;
    var written := cron.Write(writable);
    if !written {
      return WriteFailed(w.value);
    }
    var machine := MachineFor(valid, req.mac);
    var entry := Entry(uid, req.mac, machine, isoformat(w.value.start), isoformat(w.value.end));
    var _ := store.Append(Schedules, EntryRecord(entry));
    var found := ReadBack(cron.jobs, uid);
    ReadBackAppend(before, jobs, uid);
    assert jobs[..1] == [jobs[0]] && jobs[..1][..0] == [];
    TagsDiffer(uid);
    outcome := Recorded(w.value, found >= 2);
  }

  /** The read-back counts at least the two jobs just added, whatever the crontab held before. */
  lemma ReadBackFindsBoth(before: seq<CronJob>, req: Request, uid: string, w: Window, calendar: nat -> (nat, nat))
    ensures ReadBack(before + WindowJobs(req, uid, w, calendar), uid) >= 2
  {
    var jobs := WindowJobs(req, uid, w, calendar);
    ReadBackAppend(before, jobs, uid);
    assert jobs[..1] == [jobs[0]] && jobs[..1][..0] == [];
  }

  /**
   * The crontab manager: lists the tagged jobs and, when asked, removes them and
   * writes the crontab.
   */
  method RemoveAll(cron: CronTab, confirm: bool, writable: bool) returns (listed: seq<CronJob>, removed: bool)
    modifies cron
    ensures listed == Tagged(old(cron.jobs))
    ensures removed <==> listed != [] && confirm && writable
    ensures cron.jobs == (if listed != [] && confirm then Untagged(old(cron.jobs)) else old(cron.jobs))
    ensures cron.installed == (if removed then Untagged(old(cron.jobs)) else old(cron.installed))
  {
    listed := [];
    for i := 0 to |cron.jobs|
      invariant listed == Tagged(cron.jobs[..i])
    {
      assert cron.jobs[..i + 1][..i] == cron.jobs[..i];
      if StartsWith(cron.jobs[i].comment, Tag) {
        listed := listed + [cron.jobs[i]];
      }
    }
    assert cron.jobs[..|cron.jobs|] == cron.jobs;
    removed := false;
    if listed != [] && confirm {
      cron.RemoveTagged();
      removed := cron.Write(writable);
    }
  }
}
