/**
 * The command-line re-entry point (run_snmp_action.py): the job a scheduled window
 * runs. It reads a comma-separated port list, opens a manager on the switch and
 * writes one state to every port, reporting the outcome as an exit status.
 */
module SnmpAction {
  import opened Common
  import opened Text
  import opened Snmp

  /** `--action`: the two choices the argument parser accepts. */
  datatype Action = Enable | Disable

  /** `enable` selects ENABLED, `disable` selects DISABLED. */
  function StateOf(a: Action): (s: PortState)
    ensures s == Enabled <==> a == Enable
    ensures s.Value() == (if a == Enable then 1 else 2)
  {
    match a
    case Enable => Enabled
    case Disable => Disabled
  }

  /** The parsed command line; `--version` defaults to 2 before it reaches here. */
  datatype Args = Args(action: Action, ip: string, community: string, ports: string, version: int)

  const ExitSuccess := 0
  const ExitBadPort := 2
  const ExitNoManager := 3
  const ExitFailed := 4

  /** `[p.strip() for p in parts]`. */
  function Strips(parts: seq<string>): (r: seq<string>)
    ensures |r| == |parts| && forall i :: 0 <= i < |parts| ==> r[i] == Strip(parts[i])
  {
    seq(|parts|, i requires 0 <= i < |parts| => Strip(parts[i]))
  }

  /** The non-empty stripped segments of a comma-separated list, in order. */
  function Segments(text: string): seq<string> {
    DropEmpty(Strips(Split(text, ',')))
  }

  /** The ports a `--ports` text names: `int()` of every segment, or `None` when one is no integer. */
  function PortList(text: string): Option<seq<int>> {
    AllSome(Parsed(Segments(text)))
  }

  /** The comma list a scheduled job is given: the segments joined again by `,`. */
  function PortsCsv(text: string): string {
    Join(Segments(text), ',')
  }

  /** How a run ends: its exit status and the SET requests it issued, in order. */
  datatype Exit = Exit(code: int, writes: seq<SetRequest>)

  /** What `main` does with the network `net` and the command line `args`. */
  function Outcome(net: Net, args: Args): Exit {
    match PortList(args.ports)
    case None => Exit(ExitBadPort, [])
    case Some(ports) =>
      match Connect(net, host := Some(args.ip), communityRead := Some(args.community),
                    communityWrite := Some(args.community), version := args.version)
      case Err(_) => Exit(ExitNoManager, [])
      case Ok(sessions) =>
        var state := StateOf(args.action);
        var accepts := Acceptor(net, sessions.1, state);
        Exit(if AllAccepted(ports, accepts) then ExitSuccess else ExitFailed,
             Requests(sessions.1, Attempts(ports, accepts), state))
  }

  // ------------------------------------------------------------ the port list

  /** The segments are the stripped pieces between commas that are not empty; their order is kept. */
  lemma SegmentsStep(parts: seq<string>, i: nat)
    requires i < |parts|
    ensures DropEmpty(Strips(parts[..i + 1])) ==
            DropEmpty(Strips(parts[..i])) + (if Strip(parts[i]) == "" then [] else [Strip(parts[i])])
  {
    assert Strips(parts[..i + 1]) == Strips(parts[..i]) + [Strip(parts[i])];
    DropEmptyAppend(Strips(parts[..i]), [Strip(parts[i])]);
    assert [Strip(parts[i])][1..] == [];
  }

  /** Adding one present value to a fully present sequence extends the values by it. */
  lemma AllSomeStep<T>(os: seq<Option<T>>, vs: seq<T>, v: T)
    requires AllSome(os) == Some(vs)
    ensures AllSome(os + [Some(v)]) == Some(vs + [v])
  {
    assert (os + [Some(v)])[..|os|] == os;
  }

  /** The loop of `main` over `args.ports.split(',')`: `None` where it exits with status 2. */
  method ParsePorts(text: string) returns (ports: Option<seq<int>>)
    ensures ports == PortList(text)
  {
    var parts := Split(text, ',');
    var acc: seq<int> := [];
    for i := 0 to |parts|
      invariant AllSome(Parsed(DropEmpty(Strips(parts[..i])))) == Some(acc)
    {
      var part := Strip(parts[i]);
      if part == "" {
        SkipStep(parts, i);
        continue;
      }
      var n := ParseDecimal(part);
      if n.None? {
        BadSegment(parts, i);
        return None;
      }
      ParseStep(parts, i, acc, n.value);
      acc := acc + [n.value];
    }
    assert parts[..|parts|] == parts;
    ports := Some(acc);
  }

  /** An empty segment is skipped. */
  lemma SkipStep(parts: seq<string>, i: nat)
    requires i < |parts| && Strip(parts[i]) == ""
    ensures DropEmpty(Strips(parts[..i + 1])) == DropEmpty(Strips(parts[..i]))
  {
    SegmentsStep(parts, i);
  }

  /** An integer segment extends the ports by its value. */
  lemma ParseStep(parts: seq<string>, i: nat, acc: seq<int>, n: int)
    requires i < |parts| && AllSome(Parsed(DropEmpty(Strips(parts[..i])))) == Some(acc)
    requires Strip(parts[i]) != "" && ParseDecimal(Strip(parts[i])) == Some(n)
    ensures AllSome(Parsed(DropEmpty(Strips(parts[..i + 1])))) == Some(acc + [n])
  {
    SegmentsStep(parts, i);
    var before := Parsed(DropEmpty(Strips(parts[..i])));
    var after := Parsed(DropEmpty(Strips(parts[..i + 1])));
    assert after == before + [Some(n)];
    AllSomeStep(before, acc, n);
  }

  /** A segment that is no integer makes the whole list unreadable, wherever it stands. */
  lemma BadSegment(parts: seq<string>, i: nat)
    requires i < |parts| && Strip(parts[i]) != "" && ParseDecimal(Strip(parts[i])).None?
    ensures AllSome(Parsed(DropEmpty(Strips(parts)))) == None
  {
    var before := DropEmpty(Strips(parts[..i]));
    assert parts == parts[..i + 1] + parts[i + 1..];
    assert Strips(parts) == Strips(parts[..i + 1]) + Strips(parts[i + 1..]);
    DropEmptyAppend(Strips(parts[..i + 1]), Strips(parts[i + 1..]));
    SegmentsStep(parts, i);
    var segs := DropEmpty(Strips(parts));
    assert segs[|before|] == Strip(parts[i]);
    assert Parsed(segs)[|before|].None?;
  }

  /** The parsed ports are the segments' values, one per segment, in input order. */
  lemma PortListOrder(text: string)
    ensures PortList(text).Some? <==> forall i :: 0 <= i < |Segments(text)| ==> ParseDecimal(Segments(text)[i]).Some?
    ensures PortList(text).Some? ==>
              var ports := PortList(text).value;
              |ports| == |Segments(text)| &&
              forall i :: 0 <= i < |ports| ==> Some(ports[i]) == ParseDecimal(Segments(text)[i])
  {
    var segs := Segments(text);
    assert forall i :: 0 <= i < |segs| ==> Parsed(segs)[i] == ParseDecimal(segs[i]);
  }

  /** Each piece of the split, stripped, holds no comma and is its own `strip()`. */
  lemma StrippedPieces(text: string)
    ensures forall i :: 0 <= i < |Strips(Split(text, ','))| ==>
              ',' !in Strips(Split(text, ','))[i] && Strip(Strips(Split(text, ','))[i]) == Strips(Split(text, ','))[i]
  {
    var parts := Split(text, ',');
    SplitPartsNoSep(text, ',');
    forall i | 0 <= i < |parts|
      ensures ',' !in Strip(parts[i]) && Strip(Strip(parts[i])) == Strip(parts[i])
    {
      var a, b := StripInfix(parts[i]);
      assert ',' !in parts[i];
      StripIdempotent(parts[i]);
    }
  }

  /**
   * The comma list of a schedule re-reads as the same segments, so the job parses the
   * very ports the form named, in the same order.
   */
  lemma PortsCsvRoundTrip(text: string)
    ensures Segments(PortsCsv(text)) == Segments(text)
    ensures PortList(PortsCsv(text)) == PortList(text)
  {
    var segs := Segments(text);
    StrippedPieces(text);
    var p := (s: string) => ',' !in s && Strip(s) == s;
    DropEmptyKeeps(Strips(Split(text, ',')), p);
    assert forall i :: 0 <= i < |segs| ==> p(segs[i]);
    if segs == [] {
      assert PortsCsv(text) == "";
      assert Split("", ',') == [""];
      assert Strips([""]) == [Strip("")];
      assert Strip("") == "";
    } else {
      SplitJoin(segs, ',');
      assert Strips(segs) == segs;
      DropEmptyNone(segs);
    }
  }

  /** `",,"` names no port at all. */
  lemma NoPortsInCommas()
    ensures Segments(",,") == []
    ensures PortList(",,") == Some([])
  {
    assert Split(",,", ',') == ["", "", ""] by {
      assert ",,"[1..] == ",";
      assert ","[1..] == "";
    }
    assert Strip("") == "";
    assert Strips(["", "", ""]) == ["", "", ""];
  }

  // ------------------------------------------------------------ the run

  /**
   * `main`: status 2 for a bad segment before anything else happens, 3 when the
   * manager cannot be built, else 0 when `set_ports` succeeded and 4 when it failed.
   */
  method Run(net: Net, args: Args) returns (code: int, writes: seq<SetRequest>)
    ensures Exit(code, writes) == Outcome(net, args)
  {
    var ports := ParsePorts(args.ports);
    if ports.None? {
      return ExitBadPort, [];
    }
    var manager := SnmpManager.Open(net, host := Some(args.ip), communityRead := Some(args.community),
                                   communityWrite := Some(args.community), version := args.version);
    if manager.Err? {
      return ExitNoManager, [];
    }
    var snmp := manager.value;
    var state := StateOf(args.action);
    var ok := snmp.SetPorts(ports.value, state);
    writes := snmp.sent;
    code := if ok then ExitSuccess else ExitFailed;
  }

  /** A segment that is not an integer ends the run with status 2, before any write. */
  lemma BadPortExitsEarly(net: Net, args: Args, i: nat)
    requires i < |Segments(args.ports)| && ParseDecimal(Segments(args.ports)[i]).None?
    ensures Outcome(net, args) == Exit(ExitBadPort, [])
  {
    PortListOrder(args.ports);
  }

  /**
   * The run ends in one of four statuses: 0 exactly when the list parses, the manager
   * opens and every write is accepted; 4 only after a write that the switch refused.
   */
  lemma OutcomeCodes(net: Net, args: Args)
    ensures var o := Outcome(net, args);
      var c := Connect(net, host := Some(args.ip), communityRead := Some(args.community),
                       communityWrite := Some(args.community), version := args.version);
      && o.code in {ExitSuccess, ExitBadPort, ExitNoManager, ExitFailed}
      && (o.code == ExitBadPort <==> PortList(args.ports).None?)
      && (o.code == ExitNoManager <==> PortList(args.ports).Some? && c.Err?)
      && (o.code == ExitSuccess <==>
            PortList(args.ports).Some? && c.Ok? &&
            AllAccepted(PortList(args.ports).value, Acceptor(net, c.value.1, StateOf(args.action))))
      && (o.code == ExitFailed ==>
            o.writes != [] &&
            !net.write(o.writes[|o.writes| - 1].session, o.writes[|o.writes| - 1].oid, o.writes[|o.writes| - 1].value))
      && (o.code in {ExitBadPort, ExitNoManager} ==> o.writes == [])
  {
    var c := Connect(net, host := Some(args.ip), communityRead := Some(args.community),
                     communityWrite := Some(args.community), version := args.version);
    if PortList(args.ports).Some? && c.Ok? {
      OpenedOutcome(net, args, PortList(args.ports).value, c.value.1);
    }
  }

  /** Once the list parses and the manager opens, the run ends in 0 or 4, by whether every write is accepted. */
  lemma OpenedOutcome(net: Net, args: Args, ports: seq<int>, s: Session)
    requires PortList(args.ports) == Some(ports)
    requires Connect(net, host := Some(args.ip), communityRead := Some(args.community),
                     communityWrite := Some(args.community), version := args.version).Ok?
    requires s == Connect(net, host := Some(args.ip), communityRead := Some(args.community),
                          communityWrite := Some(args.community), version := args.version).value.1
    ensures var o := Outcome(net, args);
      var accepts := Acceptor(net, s, StateOf(args.action));
      && o == Exit(if AllAccepted(ports, accepts) then ExitSuccess else ExitFailed,
                   Requests(s, Attempts(ports, accepts), StateOf(args.action)))
      && (!AllAccepted(ports, accepts) ==>
            o.writes != [] &&
            !net.write(o.writes[|o.writes| - 1].session, o.writes[|o.writes| - 1].oid, o.writes[|o.writes| - 1].value))
  {
    OpenedExit(net, args, ports, s);
    if !AllAccepted(ports, Acceptor(net, s, StateOf(args.action))) {
      LastWriteRefused(net, s, ports, StateOf(args.action));
    }
  }

  /** The exit of an opened run: its status and the SETs it sent. */
  lemma OpenedExit(net: Net, args: Args, ports: seq<int>, s: Session)
    requires PortList(args.ports) == Some(ports)
    requires Connect(net, host := Some(args.ip), communityRead := Some(args.community),
                     communityWrite := Some(args.community), version := args.version).Ok?
    requires s == Connect(net, host := Some(args.ip), communityRead := Some(args.community),
                          communityWrite := Some(args.community), version := args.version).value.1
    ensures Outcome(net, args).code ==
              (if AllAccepted(ports, Acceptor(net, s, StateOf(args.action))) then ExitSuccess else ExitFailed)
    ensures Outcome(net, args).writes ==
              Requests(s, Attempts(ports, Acceptor(net, s, StateOf(args.action))), StateOf(args.action))
  {
  }

  /** When some port is refused, the last SET of the run is one the switch refused. */
  lemma LastWriteRefused(net: Net, s: Session, ports: seq<int>, state: PortState)
    requires !AllAccepted(ports, Acceptor(net, s, state))
    ensures var w := Requests(s, Attempts(ports, Acceptor(net, s, state)), state);
      w != [] && !net.write(w[|w| - 1].session, w[|w| - 1].oid, w[|w| - 1].value)
  {
    var a := Attempts(ports, Acceptor(net, s, state));
    AttemptsOutcome(ports, Acceptor(net, s, state));
    assert Requests(s, a, state)[|a| - 1] == Request(s, a[|a| - 1], state);
  }

  /**
   * When the manager opens, the run writes the selected state to a prefix of the
   * parsed ports, in order; status 0 means it wrote them all.
   */
  lemma OutcomeWrites(net: Net, args: Args)
    requires PortList(args.ports).Some?
    requires Connect(net, host := Some(args.ip), communityRead := Some(args.community),
                     communityWrite := Some(args.community), version := args.version).Ok?
    ensures var ports := PortList(args.ports).value;
      var o := Outcome(net, args);
      && |o.writes| <= |ports|
      && (forall k :: 0 <= k < |o.writes| ==>
            o.writes[k].oid == PortInstance(AdminStatusOid, ports[k]) && o.writes[k].value == StateOf(args.action).Value())
      && (o.code == ExitSuccess ==> |o.writes| == |ports|)
  {
    var ports := PortList(args.ports).value;
    var c := Connect(net, host := Some(args.ip), communityRead := Some(args.community),
                     communityWrite := Some(args.community), version := args.version);
    var accepts := Acceptor(net, c.value.1, StateOf(args.action));
    AttemptWrites(c.value.1, ports, accepts, StateOf(args.action));
    assert Outcome(net, args).writes == Requests(c.value.1, Attempts(ports, accepts), StateOf(args.action));
  }

  /** The SETs of a run go to a prefix of the ports, in order, and to all of them when every write succeeds. */
  lemma AttemptWrites(s: Session, ports: seq<int>, accepts: int -> bool, state: PortState)
    ensures var w := Requests(s, Attempts(ports, accepts), state);
      && |w| <= |ports|
      && (forall k :: 0 <= k < |w| ==> w[k].oid == PortInstance(AdminStatusOid, ports[k]) && w[k].value == state.Value())
      && (AllAccepted(ports, accepts) ==> |w| == |ports|)
  {
    var a := Attempts(ports, accepts);
    AttemptsPrefix(ports, accepts);
    AttemptsOutcome(ports, accepts);
    assert forall k :: 0 <= k < |a| ==> a[k] == ports[k];
  }

  /** A list with no ports, such as `",,"`, succeeds without writing once the manager opens. */
  lemma EmptyListSucceeds(net: Net, args: Args)
    requires Segments(args.ports) == []
    requires Connect(net, host := Some(args.ip), communityRead := Some(args.community),
                     communityWrite := Some(args.community), version := args.version).Ok?
    ensures Outcome(net, args) == Exit(ExitSuccess, [])
  {
  }
}
