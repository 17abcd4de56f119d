/**
 * The protocol adapter (app/snmp.py): one SNMP manager per switch.
 *
 * The switch's answers are not computed here: `Net` is an oracle that says, for a
 * session, whether it opens, what a GET or a WALK of an OID returns (or that the call
 * raised), and whether a SET succeeds. Every manager operation is stated against it.
 */
module Snmp {
  import opened Common
  import opened Text

  /** `PortState`: the ifAdminStatus values written to a port. */
  datatype PortState = Enabled | Disabled {
    function Value(): int {
      if Enabled? then 1 else 2
    }
  }

  const OperStatusOid := ".1.3.6.1.2.1.2.2.1.8"
  const AdminStatusOid := ".1.3.6.1.2.1.2.2.1.7"
  const FdbPortOid := ".1.3.6.1.2.1.17.4.3.1.2"
  const BridgeAddressOid := ".1.3.6.1.2.1.17.1.1"

  /** One variable binding of a reply: its OID, its index part, and its value (absent as `None`). */
  datatype VarBind = VarBind(oid: string, oidIndex: string, value: Option<string>)

  /**
   * An OID as the manager requests it: a whole object (walked, or the scalar bridge
   * address), one port's instance of a per-port column, or an FDB instance named by
   * its MAC suffix.
   */
  datatype Oid = Object(name: string) | PortInstance(name: string, port: int) | MacInstance(name: string, suffix: string) {
    /** The dotted text put on the wire. */
    function Text(): string {
      match this
      case Object(n) => n
      case PortInstance(n, p) => n + "." + IntToString(p)
      case MacInstance(n, s) => n + "." + s
    }
  }

  /** The result of a call on a session: an answer, or an exception raised by the transport. */
  datatype Reply<+T> = Answer(value: T) | Raised

  /** The parameters of an easysnmp `Session`; the fallback session has no timeout or retries. */
  datatype Session = Session(hostname: string, community: string, version: int,
                             timeout: Option<int>, retries: Option<int>)

  /** What the network does with each request. */
  datatype Net = Net(
    opens: Session -> bool,
    get: (Session, Oid) -> Reply<VarBind>,
    walk: (Session, Oid) -> Reply<seq<VarBind>>,
    write: (Session, Oid, int) -> bool)

  /** A SET request issued on the write session. */
  datatype SetRequest = SetRequest(session: Session, oid: Oid, value: int)

  /** The connection parameters after the constructor's defaulting rules. */
  datatype Params = Params(host: string, readCommunity: string, writeCommunity: string,
                           version: int, timeout: int, retries: int)

  datatype ConstructError = HostRequired | SessionFailed

  /** Python truthiness of an optional text: present and not empty. */
  predicate Truthy(o: Option<string>) {
    o.Some? && o.value != ""
  }

  /**
   * The parameter resolution of `SNMPManager.__init__`: `hostname` stands in for a
   * falsy `host`, `community` for a falsy read community (setting both communities),
   * the read community defaults to "public" and the write community to the read one.
   */
  function ResolveParams(host: Option<string> := None, communityRead: Option<string> := None,
                         communityWrite: Option<string> := None, version: int := 2, timeout: int := 2,
                         retries: int := 1, hostname: Option<string> := None,
                         community: Option<string> := None): (r: Result<Params, ConstructError>)
    ensures r.Err? <==> host.None? && !Truthy(hostname)
    ensures r.Err? ==> r.error == HostRequired
    ensures r.Ok? && Truthy(host) ==> r.value.host == host.value
    ensures r.Ok? && !Truthy(host) && Truthy(hostname) ==> r.value.host == hostname.value
    ensures r.Ok? && !Truthy(host) && !Truthy(hostname) ==> Some(r.value.host) == host
    ensures r.Ok? && Truthy(community) && !Truthy(communityRead) ==>
              r.value.readCommunity == community.value && r.value.writeCommunity == community.value
    ensures r.Ok? && !Truthy(community) && communityRead.None? ==> r.value.readCommunity == "public"
    ensures r.Ok? && Truthy(communityRead) ==> r.value.readCommunity == communityRead.value
    ensures r.Ok? && !(Truthy(community) && !Truthy(communityRead)) && communityWrite.None? ==>
              r.value.writeCommunity == r.value.readCommunity
    ensures r.Ok? && !(Truthy(community) && !Truthy(communityRead)) && communityWrite.Some? ==>
              r.value.writeCommunity == communityWrite.value
    ensures r.Ok? ==> r.value.version == version && r.value.timeout == timeout && r.value.retries == retries
  {
    var host' := if Truthy(hostname) && !Truthy(host) then hostname else host;
    var useCommunity := Truthy(community) && !Truthy(communityRead);
    var read' := if useCommunity then community else communityRead;
    var write' := if useCommunity then community else communityWrite;
    if host'.None? then Err(HostRequired)
    else
      var read := if read'.None? then "public" else read'.value;
      var write := if write'.None? then read else write'.value;
      Ok(Params(host'.value, read, write, version, timeout, retries))
  }

  /**
   * The read and write sessions: first with timeout and retries; if either of those
   * raises, both again without them; if that raises too, construction fails.
   */
  function OpenSessions(net: Net, p: Params): (r: Option<(Session, Session)>)
    ensures r.Some? ==> net.opens(r.value.0) && net.opens(r.value.1)
    ensures r.Some? ==> r.value.0.hostname == p.host && r.value.1.hostname == p.host
    ensures r.Some? ==> r.value.0.community == p.readCommunity && r.value.1.community == p.writeCommunity
    ensures r.Some? ==> r.value.0.version == p.version && r.value.1.version == p.version
  {
    var read := Session(p.host, p.readCommunity, p.version, Some(p.timeout), Some(p.retries));
    var write := Session(p.host, p.writeCommunity, p.version, Some(p.timeout), Some(p.retries));
    var read' := Session(p.host, p.readCommunity, p.version, None, None);
    var write' := Session(p.host, p.writeCommunity, p.version, None, None);
    if net.opens(read) && net.opens(write) then Some((read, write))
    else if net.opens(read') && net.opens(write') then Some((read', write'))
    else None
  }

  /** Everything `SNMPManager(...)` does before it returns or raises. */
  function Connect(net: Net, host: Option<string> := None, communityRead: Option<string> := None,
                   communityWrite: Option<string> := None, version: int := 2, timeout: int := 2,
                   retries: int := 1, hostname: Option<string> := None,
                   community: Option<string> := None): Result<(Session, Session), ConstructError>
  {
    match ResolveParams(host, communityRead, communityWrite, version, timeout, retries, hostname, community)
    case Err(e) => Err(e)
    case Ok(p) =>
      match OpenSessions(net, p)
      case None => Err(SessionFailed)
      case Some(sessions) => Ok(sessions)
  }

  // ------------------------------------------------------------ state codes

  /** `alterar_estado_porta(s)`: 1 means enable; every other code means disable. */
  function StateOfCode(code: int): (s: PortState)
  {
    if code == PortState.Enabled.Value() then Enabled else Disabled
  }

  /** The code mapping selects Enabled exactly for 1 and reads a state's own code back. */
  lemma StateOfCodeSpec(code: int, s: PortState)
    ensures StateOfCode(code) == Enabled <==> code == 1
    ensures StateOfCode(s.Value()) == s
  {
  }

  // ------------------------------------------------------------ forwarding table

  /** One learned address of the forwarding table and the port it was seen on. */
  datatype FdbEntry = FdbEntry(mac: string, port: Option<int>)

  /** The index part of a walked FDB binding: after the FDB prefix, or else its `oid_index`. */
  function FdbSuffix(v: VarBind): string {
    var prefix := FdbPortOid + ".";
    if StartsWith(v.oid, prefix) then v.oid[|prefix|..] else v.oidIndex
  }

  /** The leading run of present values: everything before the first `None`. */
  function LeadingSome<T>(os: seq<Option<T>>): seq<T> {
    if os == [] || os[0].None? then [] else [os[0].value] + LeadingSome(os[1..])
  }

  /** The present values, in order. */
  function Somes<T>(os: seq<Option<T>>): seq<T> {
    if os == [] then [] else Somes(os[..|os| - 1]) + (if os[|os| - 1].Some? then [os[|os| - 1].value] else [])
  }

  /** `int(p)` for each part. */
  function Parsed(parts: seq<string>): seq<Option<int>> {
    seq(|parts|, i requires 0 <= i < |parts| => ParseDecimal(parts[i]))
  }

  function Hex2All(ns: seq<int>): seq<string> {
    seq(|ns|, i requires 0 <= i < |ns| => Hex2(ns[i]))
  }

  function DecimalAll(ns: seq<int>): seq<string> {
    seq(|ns|, i requires 0 <= i < |ns| => IntToString(ns[i]))
  }

  /** The octets an FDB index suffix encodes: its non-empty dot-separated parts, up to the first that is not an integer. */
  function SuffixOctets(suffix: string): seq<int> {
    LeadingSome(Parsed(DropEmpty(Split(suffix, '.'))))
  }

  /** The address an octet sequence is written as: `%02X` bytes joined by `:`. */
  function MacText(octets: seq<int>): string {
    Join(Hex2All(octets), ':')
  }

  /** `int(value)`: the port number, or `None` when the value is absent or not an integer. */
  function PortOfValue(value: Option<string>): Option<int> {
    match value
    case None => None
    case Some(s) => ParseDecimal(s)
  }

  /** One walked binding decoded; `None` when its suffix has no leading integer part. */
  function DecodeEntry(v: VarBind): Option<FdbEntry> {
    var octets := SuffixOctets(FdbSuffix(v));
    if octets == [] then None else Some(FdbEntry(MacText(octets), PortOfValue(v.value)))
  }

  function DecodeAll(vs: seq<VarBind>): seq<Option<FdbEntry>> {
    seq(|vs|, i requires 0 <= i < |vs| => DecodeEntry(vs[i]))
  }

  /** The entries `get_fdb_entries` makes of a walk: the decodable bindings, in walk order. */
  function FdbEntries(vs: seq<VarBind>): seq<FdbEntry> {
    Somes(DecodeAll(vs))
  }

  /**
   * The leading run is exactly the prefix before the first absent value: when the
   * first `j` are present and the next (if any) is absent, the run is those `j` values.
   */
  lemma {:induction false} LeadingSomeRun<T>(os: seq<Option<T>>, j: nat)
    requires j <= |os|
    requires forall k :: 0 <= k < j ==> os[k].Some?
    requires j < |os| ==> os[j].None?
    ensures LeadingSome(os) == seq(j, k requires 0 <= k < j => os[k].value)
  {
    if j > 0 {
      LeadingSomeRun(os[1..], j - 1);
    }
  }

  /** Filtering a concatenation concatenates the filtered halves. */
  lemma {:induction false} SomesAppend<T>(a: seq<Option<T>>, b: seq<Option<T>>)
    ensures Somes(a + b) == Somes(a) + Somes(b)
    decreases |b|
  {
    if b == [] {
      assert a + b == a;
    } else {
      var b' := b[..|b| - 1];
      assert (a + b)[..|a + b| - 1] == a + b';
      SomesAppend(a, b');
    }
  }

  /** At most one result per value; when every value is present, the results are those values in order. */
  lemma {:induction false} SomesBound<T>(os: seq<Option<T>>)
    ensures |Somes(os)| <= |os|
    ensures (forall i :: 0 <= i < |os| ==> os[i].Some?) ==>
              |Somes(os)| == |os| && forall i :: 0 <= i < |os| ==> Somes(os)[i] == os[i].value
    ensures (forall i :: 0 <= i < |os| ==> os[i].None?) ==> Somes(os) == []
  {
    if os != [] {
      var init := os[..|os| - 1];
      assert forall i :: 0 <= i < |init| ==> init[i] == os[i];
      SomesBound(init);
    }
  }

  /** A walk is answered in order: decoding a concatenation concatenates the decodings. */
  lemma FdbEntriesAppend(a: seq<VarBind>, b: seq<VarBind>)
    ensures FdbEntries(a + b) == FdbEntries(a) + FdbEntries(b)
  {
    assert DecodeAll(a + b) == DecodeAll(a) + DecodeAll(b);
    SomesAppend(DecodeAll(a), DecodeAll(b));
  }

  /**
   * At most one entry per binding; undecodable bindings are skipped, never an error;
   * when every binding decodes, entry `i` is binding `i` decoded.
   */
  lemma FdbEntriesBound(vs: seq<VarBind>)
    ensures |FdbEntries(vs)| <= |vs|
    ensures (forall i :: 0 <= i < |vs| ==> DecodeEntry(vs[i]).Some?) ==>
              |FdbEntries(vs)| == |vs| && forall i :: 0 <= i < |vs| ==> FdbEntries(vs)[i] == DecodeEntry(vs[i]).value
    ensures (forall i :: 0 <= i < |vs| ==> DecodeEntry(vs[i]).None?) ==> FdbEntries(vs) == []
  {
    SomesBound(DecodeAll(vs));
  }

  lemma DecimalAllParts(ns: seq<int>)
    ensures forall i :: 0 <= i < |DecimalAll(ns)| ==> '.' !in DecimalAll(ns)[i] && DecimalAll(ns)[i] != []
    ensures forall i :: 0 <= i < |ns| ==> Parsed(DecimalAll(ns))[i] == Some(ns[i])
  {
    forall i | 0 <= i < |ns|
      ensures '.' !in IntToString(ns[i]) && IntToString(ns[i]) != [] && ParseDecimal(IntToString(ns[i])) == Some(ns[i])
    {
      IntToStringChars(ns[i]);
      ParseIntToString(ns[i]);
    }
  }

  /** A dotted-decimal suffix `a.b.c...` decodes to its octets. */
  lemma SuffixOctetsOfDecimal(ns: seq<int>)
    requires |ns| >= 1
    ensures SuffixOctets(Join(DecimalAll(ns), '.')) == ns
  {
    DecimalAllParts(ns);
    SplitJoin(DecimalAll(ns), '.');
    DropEmptyNone(DecimalAll(ns));
    LeadingSomeRun(Parsed(DecimalAll(ns)), |ns|);
  }

  /** A suffix whose parts turn non-numeric keeps the octets before the first such part. */
  lemma SuffixOctetsPrefix(ns: seq<int>, bad: string, rest: seq<string>)
    requires ParseDecimal(bad).None?
    ensures LeadingSome(Parsed(DecimalAll(ns) + [bad] + rest)) == ns
  {
    DecimalAllParts(ns);
    var parts := DecimalAll(ns) + [bad] + rest;
    assert forall k :: 0 <= k < |ns| ==> parts[k] == DecimalAll(ns)[k];
    assert parts[|ns|] == bad;
    LeadingSomeRun(Parsed(parts), |ns|);
  }

  // ------------------------------------------------------------ grouping by port

  /** The addresses learned on port `p`, in walk order. */
  function MacsOn(es: seq<FdbEntry>, p: int): seq<string> {
    if es == [] then []
    else MacsOn(es[..|es| - 1], p) + (if es[|es| - 1].port == Some(p) then [es[|es| - 1].mac] else [])
  }

  /**
   * The grouping of `get_macs_by_port` loses and invents nothing: an address is listed
   * under `p` exactly when some entry learned it on `p`.
   */
  lemma {:induction false} MacsOnExact(es: seq<FdbEntry>, p: int)
    ensures forall mac :: mac in MacsOn(es, p) <==> exists i :: 0 <= i < |es| && es[i] == FdbEntry(mac, Some(p))
    decreases |es|
  {
    if es != [] {
      var n := |es| - 1;
      var init := es[..n];
      MacsOnExact(init, p);
      assert forall i :: 0 <= i < n ==> init[i] == es[i];
      forall mac | exists i :: 0 <= i < |es| && es[i] == FdbEntry(mac, Some(p))
        ensures mac in MacsOn(es, p)
      {
        var i :| 0 <= i < |es| && es[i] == FdbEntry(mac, Some(p));
        if i < n {
          assert init[i] == FdbEntry(mac, Some(p));
        }
      }
    }
  }

  /** A port is a key of the grouping exactly when some entry was learned on it. */
  lemma MacsOnEmpty(es: seq<FdbEntry>, p: int)
    ensures MacsOn(es, p) == [] <==> forall i :: 0 <= i < |es| ==> es[i].port != Some(p)
  {
    MacsOnExact(es, p);
    if MacsOn(es, p) != [] {
      assert MacsOn(es, p)[0] in MacsOn(es, p);
    }
    forall i | 0 <= i < |es| && es[i].port == Some(p) ensures es[i].mac in MacsOn(es, p) {
      assert es[i] == FdbEntry(es[i].mac, Some(p));
    }
  }

  /** Each entry learned on `p` contributes one address to its list: the list is as long as there are such entries. */
  lemma {:induction false} MacsOnCount(es: seq<FdbEntry>, p: int)
    ensures |MacsOn(es, p)| == |set i | 0 <= i < |es| && es[i].port == Some(p)|
  {
    if es != [] {
      var n := |es| - 1;
      MacsOnCount(es[..n], p);
      var before := set i | 0 <= i < n && es[..n][i].port == Some(p);
      var now := set i | 0 <= i < |es| && es[i].port == Some(p);
      assert before == set i | 0 <= i < n && es[i].port == Some(p);
      if es[n].port == Some(p) {
        assert now == before + {n};
        assert n !in before;
      } else {
        assert now == before;
      }
    }
  }

  /**
   * An address occurs in a port's list once for each entry that learned it on that
   * port: nothing is merged or repeated.
   */
  lemma {:induction false} MacsOnMultiplicity(es: seq<FdbEntry>, p: int, mac: string)
    ensures multiset(MacsOn(es, p))[mac] == |set i | 0 <= i < |es| && es[i].port == Some(p) && es[i].mac == mac|
  {
    if es != [] {
      var n := |es| - 1;
      MacsOnMultiplicity(es[..n], p, mac);
      var tail := if es[n].port == Some(p) then [es[n].mac] else [];
      assert MacsOn(es, p) == MacsOn(es[..n], p) + tail;
      assert multiset(tail)[mac] == if es[n].port == Some(p) && es[n].mac == mac then 1 else 0;
      LearnedStep(es, p, mac);
    }
  }

  /** The entries that learned `mac` on `p`, one entry more. */
  lemma LearnedStep(es: seq<FdbEntry>, p: int, mac: string)
    requires es != []
    ensures var n := |es| - 1;
      |set i | 0 <= i < |es| && es[i].port == Some(p) && es[i].mac == mac|
      == |set i | 0 <= i < n && es[..n][i].port == Some(p) && es[..n][i].mac == mac|
         + (if es[n].port == Some(p) && es[n].mac == mac then 1 else 0)
  {
    var n := |es| - 1;
    var hit := es[n].port == Some(p) && es[n].mac == mac;
    var before := set i | 0 <= i < n && es[..n][i].port == Some(p) && es[..n][i].mac == mac;
    var now := set i | 0 <= i < |es| && es[i].port == Some(p) && es[i].mac == mac;
    var extra: set<int> := if hit then {n} else {};
    forall i | i in now ensures i in before + extra {
      if i < n {
        assert es[..n][i] == es[i];
      }
    }
    forall i | i in before + extra ensures i in now {
      if i < n {
        assert es[..n][i] == es[i];
      }
    }
    assert now == before + extra;
    assert n !in before;
  }

  /** `mapping` groups the addresses of `es` by port, as `get_macs_by_port` builds it. */
  ghost predicate Grouped(mapping: map<int, seq<string>>, es: seq<FdbEntry>) {
    && (forall p :: p in mapping <==> MacsOn(es, p) != [])
    && (forall p :: p in mapping ==> mapping[p] == MacsOn(es, p))
  }

  /** One more entry: entries without a port leave the grouping alone, others append to their port. */
  lemma GroupedStep(mapping: map<int, seq<string>>, es: seq<FdbEntry>, i: nat)
    requires i < |es| && Grouped(mapping, es[..i])
    ensures es[i].port.None? ==> Grouped(mapping, es[..i + 1])
    ensures es[i].port.Some? ==>
      var p := es[i].port.value;
      Grouped(mapping[p := (if p in mapping then mapping[p] else []) + [es[i].mac]], es[..i + 1])
  {
    assert es[..i + 1][..i] == es[..i];
  }

  // ------------------------------------------------------------ bridge address

  /** `get_bridge_mac` given the GET reply: each character's code as `%02X`, joined by `:`; "" on failure or no value. */
  function BridgeMacText(reply: Reply<VarBind>): string {
    match reply
    case Raised => ""
    case Answer(v) =>
      match v.value
      case None => ""
      case Some(raw) => MacText(seq(|raw|, i requires 0 <= i < |raw| => raw[i] as int))
  }

  lemma Hex2AllParts(ns: seq<int>)
    ensures forall i :: 0 <= i < |Hex2All(ns)| ==> ':' !in Hex2All(ns)[i]
  {
    forall i | 0 <= i < |ns| ensures ':' !in Hex2(ns[i]) {
      Hex2Chars(ns[i]);
    }
  }

  /**
   * A bridge address read back: for raw bytes, the text splits on `:` into one
   * two-digit hexadecimal group per byte, each parsing back to that byte.
   */
  lemma BridgeMacRoundTrip(v: VarBind)
    requires v.value.Some? && v.value.value != []
    requires forall i :: 0 <= i < |v.value.value| ==> v.value.value[i] as int < 256
    ensures var raw := v.value.value;
      var groups := Split(BridgeMacText(Answer(v)), ':');
      |groups| == |raw| && forall i :: 0 <= i < |raw| ==> |groups[i]| == 2 && ParseInt(groups[i], Hexadecimal) == Some(raw[i] as int)
  {
    var raw := v.value.value;
    var ns := seq(|raw|, i requires 0 <= i < |raw| => raw[i] as int);
    Hex2AllParts(ns);
    SplitJoin(Hex2All(ns), ':');
    forall i | 0 <= i < |raw| ensures |Hex2(ns[i])| == 2 && ParseInt(Hex2(ns[i]), Hexadecimal) == Some(raw[i] as int) {
      Hex2Byte(ns[i]);
      ParseHex2(ns[i]);
    }
  }

  /** No reply, or a reply without a value, reads as the empty address. */
  lemma BridgeMacFailure(reply: Reply<VarBind>)
    requires reply.Raised? || reply.value.value.None? || reply.value.value == Some("")
    ensures BridgeMacText(reply) == ""
  {
  }

  // ------------------------------------------------------------ port status

  /** One record of `fetch_port_status`. */
  datatype PortStatus = PortStatus(port: int, operational: Option<string>, administrative: Option<string>)


  // ------------------------------------------------------------ writes

  /** Whether the SET of `state` on `port`'s ifAdminStatus succeeds (a raised error counts as failure). */
  function Accepted(net: Net, s: Session, port: int, state: PortState): bool {
    net.write(s, PortInstance(AdminStatusOid, port), state.Value())
  }

  function Request(s: Session, port: int, state: PortState): SetRequest {
    SetRequest(s, PortInstance(AdminStatusOid, port), state.Value())
  }

  /** Which ports accept a SET of `state` on session `s`. */
  function Acceptor(net: Net, s: Session, state: PortState): int -> bool {
    p => Accepted(net, s, p, state)
  }

  /** The ports `set_ports` writes, in order: all of them, or up to and including the first that fails. */
  function Attempts(ports: seq<int>, accepts: int -> bool): seq<int> {
    if ports == [] then []
    else if !accepts(ports[0]) then [ports[0]]
    else [ports[0]] + Attempts(ports[1..], accepts)
  }

  predicate AllAccepted(ports: seq<int>, accepts: int -> bool) {
    forall i :: 0 <= i < |ports| ==> accepts(ports[i])
  }

  function Requests(s: Session, ports: seq<int>, state: PortState): seq<SetRequest> {
    seq(|ports|, i requires 0 <= i < |ports| => Request(s, ports[i], state))
  }

  /**
   * `set_ports` short-circuits: it writes a prefix of the list, in order, and every
   * write before the last one it attempts succeeded.
   */
  lemma {:induction false} AttemptsPrefix(ports: seq<int>, accepts: int -> bool)
    ensures var a := Attempts(ports, accepts);
      && |a| <= |ports| && a == ports[..|a|]
      && forall k :: 0 <= k < |a| - 1 ==> accepts(a[k])
  {
    if ports != [] && accepts(ports[0]) {
      AttemptsPrefix(ports[1..], accepts);
      var rest := Attempts(ports[1..], accepts);
      assert Attempts(ports, accepts) == [ports[0]] + rest;
      assert [ports[0]] + ports[1..][..|rest|] == ports[..|rest| + 1];
    }
  }

  /**
   * It writes the whole list when every write succeeds, and otherwise stops right
   * after the first write that fails.
   */
  lemma {:induction false} AttemptsOutcome(ports: seq<int>, accepts: int -> bool)
    ensures var a := Attempts(ports, accepts);
      && (AllAccepted(ports, accepts) ==> a == ports)
      && (!AllAccepted(ports, accepts) ==> a != [] && !accepts(a[|a| - 1]))
  {
    if ports != [] && accepts(ports[0]) {
      AttemptsOutcome(ports[1..], accepts);
      var rest := Attempts(ports[1..], accepts);
      assert Attempts(ports, accepts) == [ports[0]] + rest;
      if AllAccepted(ports, accepts) {
        assert AllAccepted(ports[1..], accepts) by {
          forall i | 0 <= i < |ports[1..]| ensures accepts(ports[1..][i]) {
            assert ports[1..][i] == ports[i + 1];
          }
        }
        assert [ports[0]] + ports[1..] == ports;
      } else {
        var j :| 0 <= j < |ports| && !accepts(ports[j]);
        assert ports[1..][j - 1] == ports[j];
      }
    }
  }

  /** The example of a failing middle port: writing [3, 4, 5] with port 4 refused stops before 5. */
  lemma StopsAtFailure(accepts: int -> bool)
    requires accepts(3) && !accepts(4)
    ensures Attempts([3, 4, 5], accepts) == [3, 4]
    ensures !AllAccepted([3, 4, 5], accepts)
  {
    assert [3, 4, 5][1..] == [4, 5];
    assert [3, 4, 5][1] == 4;
  }

  // ------------------------------------------------------------ the manager

  /** What `get_ports_by_mac` returns: one binding for a GET, or the walk when the suffix is empty. */
  datatype ProbeReply = One(binding: VarBind) | Many(bindings: seq<VarBind>)

  function ProbeOf(net: Net, s: Session, suffix: string): Reply<ProbeReply> {
    if suffix != "" then
      match net.get(s, MacInstance(FdbPortOid, suffix))
      case Raised => Raised
      case Answer(v) => Answer(One(v))
    else
      match net.walk(s, Object(FdbPortOid))
      case Raised => Raised
      case Answer(vs) => Answer(Many(vs))
  }

  /** `get_fdb_entries` on a session: a walk that raises gives no entries. */
  function FdbEntriesOf(net: Net, s: Session): seq<FdbEntry> {
    match net.walk(s, Object(FdbPortOid))
    case Raised => []
    case Answer(vs) => FdbEntries(vs)
  }

  /** `fetch_port_status`: one record for a positive port; otherwise the oper and admin walks zipped, numbered from 1. */
  function StatusesOf(net: Net, s: Session, port: int): Reply<seq<PortStatus>> {
    if port > 0 then
      match net.get(s, PortInstance(OperStatusOid, port))
      case Raised => Raised
      case Answer(o) =>
        match net.get(s, PortInstance(AdminStatusOid, port))
        case Raised => Raised
        case Answer(a) => Answer([PortStatus(port, o.value, a.value)])
    else
      match net.walk(s, Object(OperStatusOid))
      case Raised => Raised
      case Answer(ow) =>
        match net.walk(s, Object(AdminStatusOid))
        case Raised => Raised
        case Answer(aw) => Answer(Zipped(ow, aw))
  }

  function Min(a: int, b: int): int {
    if a < b then a else b
  }

  /** The records of `enumerate(zip(oper, admin), start=1)`. */
  function Zipped(ow: seq<VarBind>, aw: seq<VarBind>): (r: seq<PortStatus>)
  {
    seq(Min(|ow|, |aw|), i requires 0 <= i < Min(|ow|, |aw|) => PortStatus(i + 1, ow[i].value, aw[i].value))
  }

  /**
   * `fetch_port_status`: a positive port gives exactly one record, for that port; port 0
   * gives as many records as the shorter walk, numbered 1..n, the i-th pairing the
   * i-th oper value with the i-th admin value.
   */
  lemma StatusesSpec(net: Net, s: Session, port: int)
    ensures var r := StatusesOf(net, s, port);
      && (port > 0 && r.Answer? ==> |r.value| == 1 && r.value[0].port == port)
      && (port <= 0 && r.Answer? ==>
            var ow, aw := net.walk(s, Object(OperStatusOid)).value, net.walk(s, Object(AdminStatusOid)).value;
            && |r.value| <= |ow| && |r.value| <= |aw| && (|r.value| == |ow| || |r.value| == |aw|)
            && forall i :: 0 <= i < |r.value| ==>
                 r.value[i].port == i + 1 && r.value[i].operational == ow[i].value && r.value[i].administrative == aw[i].value)
      && (r.Raised? <==> if port > 0 then net.get(s, PortInstance(OperStatusOid, port)).Raised? ||
                                          net.get(s, PortInstance(AdminStatusOid, port)).Raised?
                        else net.walk(s, Object(OperStatusOid)).Raised? || net.walk(s, Object(AdminStatusOid)).Raised?)
  {
  }

  /** An SNMP manager bound to one switch through a read and a write session. */
  class SnmpManager {
    const net: Net
    const readSession: Session
    const writeSession: Session
    /** The SET requests issued so far, oldest first. */
    var sent: seq<SetRequest>

    constructor (net: Net, readSession: Session, writeSession: Session)
      ensures this.net == net && this.readSession == readSession && this.writeSession == writeSession
      ensures sent == []
    {
      this.net := net;
      this.readSession := readSession;
      this.writeSession := writeSession;
      sent := [];
    }

    /** `SNMPManager(...)`: the manager, or the error its construction raises. */
    static method Open(net: Net, host: Option<string> := None, communityRead: Option<string> := None,
                       communityWrite: Option<string> := None, version: int := 2, timeout: int := 2,
                       retries: int := 1, hostname: Option<string> := None,
                       community: Option<string> := None) returns (r: Result<SnmpManager, ConstructError>)
      ensures var c := Connect(net, host, communityRead, communityWrite, version, timeout, retries, hostname, community);
        && (r.Err? <==> c.Err?)
        && (r.Err? ==> r.error == c.error)
        && (r.Ok? ==>
              && fresh(r.value) && r.value.net == net && r.value.sent == []
              && r.value.readSession == c.value.0 && r.value.writeSession == c.value.1)
    {
      var c := Connect(net, host, communityRead, communityWrite, version, timeout, retries, hostname, community);
      if c.Err? {
        return Err(c.error);
      }
      var m := new SnmpManager(net, c.value.0, c.value.1);
      r := Ok(m);
    }

    /** `get_ports_by_mac`: a GET of the FDB port for a suffix, or the whole walk for "". */
    method GetPortsByMac(suffix: string) returns (r: Reply<ProbeReply>)
      ensures suffix != "" ==> (r.Answer? <==> net.get(readSession, MacInstance(FdbPortOid, suffix)).Answer?)
      ensures suffix != "" && r.Answer? ==> r.value == One(net.get(readSession, MacInstance(FdbPortOid, suffix)).value)
      ensures suffix == "" ==> (r.Answer? <==> net.walk(readSession, Object(FdbPortOid)).Answer?)
      ensures suffix == "" && r.Answer? ==> r.value == Many(net.walk(readSession, Object(FdbPortOid)).value)
    {
      r := ProbeOf(net, readSession, suffix);
    }

    /** `get_fdb_entries`: the decodable bindings of the FDB walk, in walk order. */
    method GetFdbEntries() returns (entries: seq<FdbEntry>)
      ensures entries == FdbEntriesOf(net, readSession)
    {
      entries := [];
      var walked := net.walk(readSession, Object(FdbPortOid));
      if walked.Raised? {
        return;
      }
      var vs := walked.value;
      ghost var decoded := DecodeAll(vs);
      for i := 0 to |vs|
        invariant entries == Somes(decoded[..i])
      {
        var e := DecodeBinding(vs[i]);
        assert decoded[..i + 1][..i] == decoded[..i];
        assert Somes(decoded[..i + 1]) == Somes(decoded[..i]) + (if e.Some? then [e.value] else []);
        if e.Some? {
          entries := entries + [e.value];
        }
      }
      assert decoded[..|vs|] == decoded;
      assert FdbEntriesOf(net, readSession) == Somes(decoded);
    }

    /** `get_macs_by_port`: port to the addresses learned on it, in walk order; entries without a port are dropped. */
    method GetMacsByPort() returns (mapping: map<int, seq<string>>)
      ensures forall p :: p in mapping <==> MacsOn(FdbEntriesOf(net, readSession), p) != []
      ensures forall p :: p in mapping ==> mapping[p] == MacsOn(FdbEntriesOf(net, readSession), p)
    {
      var entries := GetFdbEntries();
      mapping := map[];
      for i := 0 to |entries|
        invariant Grouped(mapping, entries[..i])
      {
        GroupedStep(mapping, entries, i);
        var e := entries[i];
        if e.port.None? {
          continue;
        }
        var p := e.port.value;
        mapping := mapping[p := (if p in mapping then mapping[p] else []) + [e.mac]];
      }
      assert entries[..|entries|] == entries;
    }

    /** `get_bridge_mac`. */
    method GetBridgeMac() returns (mac: string)
      ensures mac == BridgeMacText(net.get(readSession, Object(BridgeAddressOid)))
    {
      var reply := net.get(readSession, Object(BridgeAddressOid));
      mac := BridgeMacText(reply);
    }

    /** `set_port_state`: one SET of the state's code on the port's ifAdminStatus; failures read as false. */
    method SetPortState(port: int, state: PortState) returns (ok: bool)
      modifies this
      ensures ok == Accepted(net, writeSession, port, state)
      ensures sent == old(sent) + [Request(writeSession, port, state)]
    {
      sent := sent + [Request(writeSession, port, state)];
      ok := net.write(writeSession, PortInstance(AdminStatusOid, port), state.Value());
    }

    /** `fetch_port_status`: transport errors are not caught here. */
    method FetchPortStatus(port: int := 0) returns (r: Reply<seq<PortStatus>>)
      ensures r == StatusesOf(net, readSession, port)
    {
      if port > 0 {
        var oper := net.get(readSession, PortInstance(OperStatusOid, port));
        if oper.Raised? {
          return Raised;
        }
        var admin := net.get(readSession, PortInstance(AdminStatusOid, port));
        if admin.Raised? {
          return Raised;
        }
        return Answer([PortStatus(port, oper.value.value, admin.value.value)]);
      }
      var operList := net.walk(readSession, Object(OperStatusOid));
      if operList.Raised? {
        return Raised;
      }
      var adminList := net.walk(readSession, Object(AdminStatusOid));
      if adminList.Raised? {
        return Raised;
      }
      var ow, aw := operList.value, adminList.value;
      var statuses: seq<PortStatus> := [];
      var n := Min(|ow|, |aw|);
      for i := 0 to n
        invariant |statuses| == i
        invariant forall k :: 0 <= k < i ==> statuses[k] == PortStatus(k + 1, ow[k].value, aw[k].value)
      {
        statuses := statuses + [PortStatus(i + 1, ow[i].value, aw[i].value)];
      }
      assert statuses == Zipped(ow, aw);
      r := Answer(statuses);
    }

    /** `set_ports`: the ports in order, stopping at the first failed write. */
    method SetPorts(ports: seq<int>, state: PortState) returns (ok: bool)
      modifies this
      ensures ok == AllAccepted(ports, Acceptor(net, writeSession, state))
      ensures sent == old(sent) + Requests(writeSession, Attempts(ports, Acceptor(net, writeSession, state)), state)
    {
      ghost var accepts := Acceptor(net, writeSession, state);
      var i := 0;
      while i < |ports|
        invariant 0 <= i <= |ports|
        invariant forall k :: 0 <= k < i ==> accepts(ports[k])
        invariant sent == old(sent) + Requests(writeSession, ports[..i], state)
      {
        var written := SetPortState(ports[i], state);
        assert written == accepts(ports[i]);
        RequestsStep(writeSession, ports, state, i);
        if !written {
          AttemptsUpTo(ports, accepts, i);
          return false;
        }
        AcceptedStep(ports, accepts, i);
        i := i + 1;
      }
      AttemptsUpTo(ports, accepts, i);
      assert ports[..i] == ports;
      ok := true;
    }

    /** `alterar_estado_porta`: code 1 enables the port, any other code disables it. */
    method ChangePortState(port: int, code: int) returns (ok: bool)
      modifies this
      ensures ok == Accepted(net, writeSession, port, StateOfCode(code))
      ensures sent == old(sent) + [Request(writeSession, port, StateOfCode(code))]
    {
      ok := SetPortState(port, StateOfCode(code));
    }

    /** `alterar_estado_portas`: `set_ports` with the state the code selects. */
    method ChangePortsState(ports: seq<int>, code: int) returns (ok: bool)
      modifies this
      ensures ok == AllAccepted(ports, Acceptor(net, writeSession, StateOfCode(code)))
      ensures sent == old(sent) + Requests(writeSession, Attempts(ports, Acceptor(net, writeSession, StateOfCode(code))), StateOfCode(code))
    {
      ok := SetPorts(ports, StateOfCode(code));
    }
  }

  /** The body of `get_fdb_entries` for one binding. */
  method DecodeBinding(v: VarBind) returns (e: Option<FdbEntry>)
    ensures e == DecodeEntry(v)
  {
    var parts := DropEmpty(Split(FdbSuffix(v), '.'));
    var macBytes := LeadingHex(parts);
    if macBytes == [] {
      return None;
    }
    var mac := Join(macBytes, ':');
    var port := PortOfValue(v.value);
    e := Some(FdbEntry(mac, port));
  }

  /** The inner loop of `get_fdb_entries`: the parts as `%02X` bytes, up to the first that is not an integer. */
  method LeadingHex(parts: seq<string>) returns (macBytes: seq<string>)
    ensures macBytes == Hex2All(LeadingSome(Parsed(parts)))
  {
    macBytes := [];
    ghost var os := Parsed(parts);
    var j := 0;
    while j < |parts|
      invariant 0 <= j <= |parts| && |macBytes| == j
      invariant forall k :: 0 <= k < j ==> os[k].Some? && macBytes[k] == Hex2(os[k].value)
    {
      var n := ParseDecimal(parts[j]);
      assert n == os[j];
      if n.None? {
        break;
      }
      macBytes := macBytes + [Hex2(n.value)];
      j := j + 1;
    }
    LeadingHexRun(os, j, macBytes);
  }

  lemma LeadingHexRun(os: seq<Option<int>>, j: nat, macBytes: seq<string>)
    requires j <= |os| && |macBytes| == j
    requires forall k :: 0 <= k < j ==> os[k].Some? && macBytes[k] == Hex2(os[k].value)
    requires j < |os| ==> os[j].None?
    ensures macBytes == Hex2All(LeadingSome(os))
  {
    LeadingSomeRun(os, j);
  }

  /** Appending one request to the requests for a prefix gives the requests for the longer prefix. */
  lemma RequestsStep(s: Session, ports: seq<int>, state: PortState, i: nat)
    requires i < |ports|
    ensures Requests(s, ports[..i], state) + [Request(s, ports[i], state)] == Requests(s, ports[..i + 1], state)
  {
  }

  lemma AcceptedStep(ports: seq<int>, accepts: int -> bool, i: nat)
    requires i < |ports| && accepts(ports[i])
    requires forall k :: 0 <= k < i ==> accepts(ports[k])
    ensures forall k :: 0 <= k < i + 1 ==> accepts(ports[k])
  {
  }

  /** When the first `i` writes succeed, `set_ports` attempts them all and then stops at the next failure, if any. */
  lemma {:induction false} AttemptsUpTo(ports: seq<int>, accepts: int -> bool, i: nat)
    requires i <= |ports|
    requires forall k :: 0 <= k < i ==> accepts(ports[k])
    ensures i == |ports| ==> Attempts(ports, accepts) == ports && AllAccepted(ports, accepts)
    ensures i < |ports| && !accepts(ports[i]) ==>
              Attempts(ports, accepts) == ports[..i + 1] && !AllAccepted(ports, accepts)
  {
    if i > 0 {
      AttemptsUpTo(ports[1..], accepts, i - 1);
      assert [ports[0]] + ports[1..] == ports;
      if i < |ports| {
        assert [ports[0]] + ports[1..][..i] == ports[..i + 1];
      }
    }
  }
}
