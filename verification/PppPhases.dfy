/** The PPP modem's negotiation: which replies a Configure-Request gets, and the order of
    phases on every run (sections 3.4 to 3.7 of RFC 1661). */
module PppPhases {
  import opened Words
  import opened Wrappers

  const LCP: nat := 0xC021
  const IPCP: nat := 0x8021
  const IPV4: nat := 0x0021

  /** A control packet handed to the framer. */
  datatype Control = Control(protocol: nat, code: Byte, id: Byte, data: seq<Byte>)

  function Be16(d: seq<Byte>, at: nat): nat
    requires at + 2 <= |d|
  {
    d[at] as int * 0x100 + d[at + 1]
  }

  // ------------------------------------------------------------ options

  /** One option, whole: type, length and data. */
  type Opt = o: seq<Byte> | |o| >= 2 witness [0, 2]

  /** A request's options, when its bytes are exactly a row of them. */
  function Parse(opt: seq<Byte>): Option<seq<Opt>>
    decreases |opt|
  {
    if opt == [] then Some([])
    else if |opt| < 2 || opt[1] < 2 || opt[1] > |opt| then None
    else
      match Parse(opt[opt[1]..])
      case None => None
      case Some(rest) => Some([opt[..opt[1]]] + rest)
  }

  /** This end's own options: its MRU and character map, or its address and name server. */
  function OwnOptions(protocol: nat, mru: nat, accm: Word, peer: Word, dns: Word): (r: seq<Opt>)
    requires mru < 0x1_0000
    ensures |r| == 2
  {
    if protocol == LCP then [[1, 4, mru / 0x100, mru % 0x100], [2, 6] + Word4(accm)]
    else [[3, 6] + Word4(peer), [129, 6] + Word4(dns)]
  }

  lemma ParseTwo(a: Opt, b: Opt)
    requires a[1] == |a| && b[1] == |b|
    ensures Parse(a + b) == Some([a, b])
  {
    assert b[b[1]..] == [] && b[..b[1]] == b;
    assert (a + b)[a[1]..] == b && (a + b)[..a[1]] == a;
    ghost var one: seq<Opt> := [b];
    assert one + [] == one;
    assert Parse(b[b[1]..]) == Some([]);
    assert Parse(b) == Some(one);
    assert [a] + one == [a, b];
  }

  lemma OwnBytes(mru: nat, accm: Word, peer: Word, dns: Word)
    requires mru < 0x1_0000
    ensures
      var lcp, ipcp := OwnOptions(LCP, mru, accm, peer, dns), OwnOptions(IPCP, mru, accm, peer, dns);
      && lcp[0] + lcp[1] == [1, 4, mru / 0x100, mru % 0x100, 2, 6] + Word4(accm)
      && ipcp[0] + ipcp[1] == [3, 6] + Word4(peer) + [129, 6] + Word4(dns)
  {
    hide Word4;
  }

  /** The guest reads them back as the values they were made from. */
  lemma OwnOptionsBack(protocol: nat, mru: nat, accm: Word, peer: Word, dns: Word)
    requires mru < 0x1_0000
    ensures
      var os := OwnOptions(protocol, mru, accm, peer, dns);
      && Parse(os[0] + os[1]) == Some(os)
      && if protocol == LCP then Be16(os[0], 2) == mru && LoadBE(os[1], 2, 4) == accm
         else LoadBE(os[0], 2, 4) == peer && LoadBE(os[1], 2, 4) == dns
  {
    var os := OwnOptions(protocol, mru, accm, peer, dns);
    ParseTwo(os[0], os[1]);
    hide Parse;
    if protocol == LCP {
      ValueBack(os[1], accm);
    } else {
      ValueBack(os[0], peer);
      ValueBack(os[1], dns);
    }
  }

  lemma ValueBack(o: Opt, w: Word)
    requires |o| == 6 && o[2..] == Word4(w)
    ensures LoadBE(o, 2, 4) == w
  {
    Word4Back(w);
    assert forall k :: 0 <= k < 4 ==> o[2 + k] == o[2..][k];
    assert o[2] == o[2..][0] && o[3] == o[2..][1] && o[4] == o[2..][2] && o[5] == o[2..][3];
    hide Word4;
  }

  /** The options up to the first that is not whole. */
  function Readable(opt: seq<Byte>): seq<Opt>
    decreases |opt|
  {
    if |opt| < 2 || opt[1] < 2 || opt[1] > |opt| then []
    else [opt[..opt[1]]] + Readable(opt[opt[1]..])
  }

  /** They are all the options of a request that parses. */
  lemma {:induction false} ParsedIsReadable(opt: seq<Byte>)
    requires Parse(opt).Some?
    ensures Readable(opt) == Parse(opt).value
    decreases |opt|
  {
    if opt != [] {
      ParsedIsReadable(opt[opt[1]..]);
    }
  }

  /** The last option of one of these types and this length. */
  function Latest(os: seq<Opt>, types: set<Byte>, length: nat): Option<Opt>
    decreases |os|
  {
    if os == [] then None
    else
      var o := os[|os| - 1];
      if o[0] in types && |o| == length then Some(o) else Latest(os[..|os| - 1], types, length)
  }

  lemma LatestNext(os: seq<Opt>, o: Opt, types: set<Byte>, length: nat)
    ensures Latest(os + [o], types, length) ==
            if o[0] in types && |o| == length then Some(o) else Latest(os, types, length)
  {
    assert (os + [o])[..|os|] == os;
  }

  predicate Rejected(protocol: nat, o: Opt) {
    if protocol == LCP then o[0] == 3 || (o[0] != 1 && o[0] != 2 && o[0] != 5 && o[0] != 7 && o[0] != 8)
    else !(|o| == 6 && (o[0] == 3 || o[0] == 129 || o[0] == 131))
  }

  predicate IsAddress(protocol: nat, o: Opt) {
    protocol != LCP && o[0] == 3 && |o| == 6
  }

  /** The value this end wants in place of an option's, if it differs. */
  function Wanted(protocol: nat, guest: Word, dns: Word, o: Opt): Option<seq<Byte>>
    requires !Rejected(protocol, o)
  {
    if protocol == LCP then None
    else
      var want := if o[0] == 3 then guest else dns;
      if LoadBE(o, 2, 4) != want then Some([o[0], 6] + Word4(want)) else None
  }

  function Rejects(protocol: nat, os: seq<Opt>): seq<Byte>
    decreases |os|
  {
    if os == [] then []
    else Rejects(protocol, os[..|os| - 1]) + (if Rejected(protocol, os[|os| - 1]) then os[|os| - 1] else [])
  }

  function Naks(protocol: nat, guest: Word, dns: Word, os: seq<Opt>): seq<Byte>
    decreases |os|
  {
    if os == [] then []
    else
      var o := os[|os| - 1];
      Naks(protocol, guest, dns, os[..|os| - 1])
      + (if !Rejected(protocol, o) && Wanted(protocol, guest, dns, o).Some?
         then Wanted(protocol, guest, dns, o).value else [])
  }

  predicate AddressSeen(protocol: nat, os: seq<Opt>) {
    exists i :: 0 <= i < |os| && IsAddress(protocol, os[i])
  }

  datatype Reply = Malformed | Reject(data: seq<Byte>) | Nak(data: seq<Byte>) | Ack

  /** The reply a request deserves: refused whole when it does not parse, rejected options
      before unwanted values, and acknowledged otherwise. */
  function ReplyTo(protocol: nat, guest: Word, dns: Word, opt: seq<Byte>): Reply {
    match Parse(opt)
    case None => Malformed
    case Some(os) =>
      var naks := Naks(protocol, guest, dns, os)
        + (if protocol == IPCP && !AddressSeen(protocol, os) then [3, 6] + Word4(guest) else []);
      if Rejects(protocol, os) != [] then Reject(Rejects(protocol, os))
      else if naks != [] then Nak(naks)
      else Ack
  }

  lemma {:induction false} RejectsSome(protocol: nat, os: seq<Opt>)
    ensures Rejects(protocol, os) != [] <==> exists i :: 0 <= i < |os| && Rejected(protocol, os[i])
    decreases |os|
  {
    if os != [] {
      RejectsSome(protocol, os[..|os| - 1]);
      var n := |os| - 1;
      if exists i :: 0 <= i < |os| && Rejected(protocol, os[i]) {
        var i :| 0 <= i < |os| && Rejected(protocol, os[i]);
        assert i < n ==> os[..n][i] == os[i];
      }
    }
  }

  predicate Unwanted(protocol: nat, guest: Word, dns: Word, o: Opt) {
    !Rejected(protocol, o) && Wanted(protocol, guest, dns, o).Some?
  }

  lemma {:induction false} NaksSome(protocol: nat, guest: Word, dns: Word, os: seq<Opt>)
    ensures Naks(protocol, guest, dns, os) != [] <==> exists i :: 0 <= i < |os| && Unwanted(protocol, guest, dns, os[i])
    decreases |os|
  {
    if os != [] {
      NaksSome(protocol, guest, dns, os[..|os| - 1]);
      var n := |os| - 1;
      if exists i :: 0 <= i < |os| && Unwanted(protocol, guest, dns, os[i]) {
        var i :| 0 <= i < |os| && Unwanted(protocol, guest, dns, os[i]);
        assert i < n ==> os[..n][i] == os[i];
      }
    }
  }

  /** Every option is one this end takes, with the value it wants. */
  predicate Acceptable(protocol: nat, guest: Word, dns: Word, os: seq<Opt>) {
    && (forall i :: 0 <= i < |os| ==> !Rejected(protocol, os[i]) && !Unwanted(protocol, guest, dns, os[i]))
    && (protocol == IPCP ==> AddressSeen(protocol, os))
  }

  /** A request is acknowledged exactly when its options parse to the end and every one is
      acceptable; then an IPCP request carried the assigned address. */
  lemma AckExact(protocol: nat, guest: Word, dns: Word, opt: seq<Byte>)
    ensures ReplyTo(protocol, guest, dns, opt) == Ack
            <==> Parse(opt).Some? && Acceptable(protocol, guest, dns, Parse(opt).value)
    ensures protocol == IPCP && ReplyTo(protocol, guest, dns, opt) == Ack ==>
            exists i :: 0 <= i < |Parse(opt).value| && IsAddress(IPCP, Parse(opt).value[i])
                        && LoadBE(Parse(opt).value[i], 2, 4) == guest
  {
    hide LoadBE, Rejects, Naks;
    if Parse(opt).Some? {
      var os := Parse(opt).value;
      RejectsSome(protocol, os);
      NaksSome(protocol, guest, dns, os);
      if protocol == IPCP && ReplyTo(protocol, guest, dns, opt) == Ack {
        var i :| 0 <= i < |os| && IsAddress(protocol, os[i]);
        assert !Unwanted(protocol, guest, dns, os[i]);
      }
    }
  }

  /** Reject wins over Nak. */
  lemma RejectWins(protocol: nat, guest: Word, dns: Word, opt: seq<Byte>)
    requires Parse(opt).Some?
    ensures ReplyTo(protocol, guest, dns, opt).Reject?
            <==> exists i :: 0 <= i < |Parse(opt).value| && Rejected(protocol, Parse(opt).value[i])
  {
    hide Rejects, Naks;
    RejectsSome(protocol, Parse(opt).value);
  }

  // ------------------------------------------------------------ the modem

  /** What is known of the options before index `at`. */
  predicate Scanned(opt: seq<Byte>, at: nat, os: seq<Opt>) {
    at <= |opt|
    && Parse(opt) == match Parse(opt[at..]) { case None => None case Some(r) => Some(os + r) }
  }

  lemma ScanStart(opt: seq<Byte>)
    ensures Scanned(opt, 0, [])
  {
    assert opt[0..] == opt;
    if Parse(opt).Some? {
      assert [] + Parse(opt).value == Parse(opt).value;
    }
  }

  lemma ScanNext(opt: seq<Byte>, at: nat, os: seq<Opt>)
    requires Scanned(opt, at, os) && |opt| - at >= 2 && 2 <= opt[at + 1] <= |opt| - at
    ensures Scanned(opt, at + opt[at + 1], os + [opt[at..at + opt[at + 1]]])
  {
    var n := opt[at + 1];
    assert opt[at..][n..] == opt[at + n..] && opt[at..][..n] == opt[at..at + n];
    if Parse(opt[at + n..]).Some? {
      var r := Parse(opt[at + n..]).value;
      assert os + ([opt[at..at + n]] + r) == os + [opt[at..at + n]] + r;
    }
  }

  lemma RejectsNext(protocol: nat, os: seq<Opt>, o: Opt)
    ensures Rejects(protocol, os + [o]) == Rejects(protocol, os) + (if Rejected(protocol, o) then o else [])
  {
    assert (os + [o])[..|os|] == os;
  }

  lemma NaksNext(protocol: nat, guest: Word, dns: Word, os: seq<Opt>, o: Opt)
    ensures Naks(protocol, guest, dns, os + [o]) ==
            Naks(protocol, guest, dns, os)
            + (if Unwanted(protocol, guest, dns, o) then Wanted(protocol, guest, dns, o).value else [])
  {
    assert (os + [o])[..|os|] == os;
  }

  lemma SeenNext(protocol: nat, os: seq<Opt>, o: Opt)
    ensures AddressSeen(protocol, os + [o]) <==> AddressSeen(protocol, os) || IsAddress(protocol, o)
  {
    if AddressSeen(protocol, os) {
      var i :| 0 <= i < |os| && IsAddress(protocol, os[i]);
      assert (os + [o])[i] == os[i];
    }
    if IsAddress(protocol, o) {
      assert (os + [o])[|os|] == o;
    }
  }

  /** The longest data a control packet carries. */
  function Whole(c: Control): seq<Control> {
    if |c.data| <= 250 then [c] else []
  }

  /** The control packet that answers a Configure-Request (sections 5.2 to 5.4 of RFC 1661). */
  function ReplyPacket(protocol: nat, id: Byte, opt: seq<Byte>, reply: Reply): Control {
    match reply
    case Ack => Control(protocol, 2, id, opt)
    case Nak(data) => Control(protocol, 3, id, data)
    case Reject(data) => Control(protocol, 4, id, data)
    case Malformed => Control(protocol, 4, id, opt)
  }

  /** Which ends have asked and which directions stand open. */
  datatype Phase = Phase(commandMode: bool, lcpSent: bool, lcpLocal: bool, lcpPeer: bool,
                         ipcpSent: bool, ipcpLocal: bool, ipcpPeer: bool)

  /** What this end asks for: its MRU, character map, address and name server. */
  datatype Values = Values(mru: nat, accm: Word, peer: Word, dns: Word)

  /** Where the negotiation stands. */
  datatype Standing = Standing(phase: Phase, wishes: Values, id: Byte, request: seq<Byte>, sent: seq<Control>)

  /** The layer this end asks for next, once the guest's request of a layer stands. */
  function AfterPeer(protocol: nat, was: Phase): Option<nat> {
    if protocol == LCP && !was.lcpSent then Some(LCP)
    else if protocol == LCP && was.lcpLocal && !was.ipcpSent then Some(IPCP)
    else None
  }

  /** And once the guest acknowledged this end's. */
  function AfterAck(protocol: nat, was: Phase): Option<nat> {
    if protocol == LCP && was.lcpPeer && !was.ipcpSent then Some(IPCP) else None
  }

  function WithRequest(p: Phase, layer: Option<nat>): Phase {
    p.(lcpSent := p.lcpSent || layer == Some(LCP), ipcpSent := p.ipcpSent || layer == Some(IPCP))
  }

  /** Values after a Configure-Nak: the last proposal for each counts. */
  function Proposed(protocol: nat, v: Values, data: seq<Byte>): (r: Values)
    ensures v.mru < 0x1_0000 ==> r.mru < 0x1_0000
  {
    ProposedFrom(protocol, v, Readable(data))
  }

  function ProposedFrom(protocol: nat, v: Values, os: seq<Opt>): (r: Values)
    ensures v.mru < 0x1_0000 ==> r.mru < 0x1_0000
  {
    if protocol == LCP then
      var mru, accm := Latest(os, {1}, 4), Latest(os, {2}, 6);
      LatestLength(os, {1}, 4);
      LatestLength(os, {2}, 6);
      v.(mru := if mru.Some? then Be16(mru.value, 2) else v.mru,
         accm := if accm.Some? then LoadBE(accm.value, 2, 4) else v.accm)
    else
      var peer, dns := Latest(os, {3}, 6), Latest(os, {129, 131}, 6);
      LatestLength(os, {3}, 6);
      LatestLength(os, {129, 131}, 6);
      v.(peer := if peer.Some? then LoadBE(peer.value, 2, 4) else v.peer,
         dns := if dns.Some? then LoadBE(dns.value, 2, 4) else v.dns)
  }

  lemma {:induction false} LatestLength(os: seq<Opt>, types: set<Byte>, length: nat)
    ensures Latest(os, types, length).Some? ==> |Latest(os, types, length).value| == length
    decreases |os|
  {
    if os != [] {
      LatestLength(os[..|os| - 1], types, length);
    }
  }

  class Modem {
    var commandMode: bool
    var lcpSent: bool
    var lcpLocal: bool
    var lcpPeer: bool
    var ipcpSent: bool
    var ipcpLocal: bool
    var ipcpPeer: bool
    var lcpId: Byte
    var ipcpId: Byte
    var requestId: Byte
    var request: seq<Byte>
    var lcpMru: nat
    var lcpAccm: Word
    var ipPeer: Word
    var dns: Word
    const ipGuest: Word
    /** Control packets sent and IPv4 packets forwarded so far. */
    var sent: seq<Control>
    var forwarded: seq<seq<Byte>>
    /** Whether LCP was open when each control packet was sent, and both layers when each
        IPv4 packet was forwarded. */
    ghost var openAt: seq<bool>
    ghost var upAt: seq<bool>

    /** The phases: an answered request was sent, and IPCP requests are sent only once LCP
        is open both ways. */
    ghost predicate Valid()
      reads this
    {
      && (lcpLocal ==> lcpSent) && (ipcpLocal ==> ipcpSent) && (ipcpSent ==> lcpLocal && lcpPeer)
      && lcpMru < 0x1_0000 && Ordered()
    }

    ghost predicate Ordered()
      reads this`sent, this`openAt, this`forwarded, this`upAt
    {
      && |openAt| == |sent| && |upAt| == |forwarded|
      && (forall i :: 0 <= i < |sent| && sent[i].protocol == IPCP && sent[i].code == 1 ==> openAt[i])
      && (forall i :: 0 <= i < |forwarded| ==> upAt[i])
    }

    ghost function State(): Phase
      reads this
    {
      Phase(commandMode, lcpSent, lcpLocal, lcpPeer, ipcpSent, ipcpLocal, ipcpPeer)
    }

    ghost function Wishes(): Values
      reads this
    {
      Values(lcpMru, lcpAccm, ipPeer, dns)
    }

    ghost function Now(): Standing
      reads this
    {
      Standing(State(), Wishes(), requestId, request, sent)
    }

    /** After `before` this end sent its own request of a layer, if any, with its wishes. */
    ghost predicate Asks(layer: Option<nat>, before: seq<Control>, id: Byte, data: seq<Byte>)
      reads this
    {
      match layer
      case None => sent == before && requestId == id && request == data
      case Some(protocol) =>
        && sent == before + [Control(protocol, 1, requestId, request)]
        && requestId == (if protocol == LCP then lcpId else ipcpId)
        && lcpMru < 0x1_0000 && Parse(request) == Some(OwnOptions(protocol, lcpMru, lcpAccm, ipPeer, dns))
    }

    /** The guest's request was answered as judged, and its direction opened exactly on an
        acknowledgement. */
    ghost predicate Answered(was: Standing, protocol: nat, id: Byte, opt: seq<Byte>)
      reads this
    {
      var reply := ReplyTo(protocol, ipGuest, was.wishes.dns, opt);
      var next := if reply.Ack? then AfterPeer(protocol, was.phase) else None;
      && Asks(next, was.sent + Whole(ReplyPacket(protocol, id, opt, reply)), was.id, was.request)
      && State() == WithRequest(was.phase, next).(lcpPeer := was.phase.lcpPeer || (protocol == LCP && reply.Ack?),
                                                  ipcpPeer := was.phase.ipcpPeer || (protocol == IPCP && reply.Ack?))
      && Wishes() == was.wishes
    }

    /** An acknowledgement counted exactly if it was of the outstanding request. */
    ghost predicate Acknowledged(was: Standing, protocol: nat, id: Byte, data: seq<Byte>)
      reads this
    {
      var mine := id == was.id && data == was.request
                  && if protocol == LCP then was.phase.lcpSent else was.phase.ipcpSent;
      var next := if mine then AfterAck(protocol, was.phase) else None;
      && Asks(next, was.sent, was.id, was.request)
      && State() == WithRequest(was.phase, next).(lcpLocal := was.phase.lcpLocal || (protocol == LCP && mine),
                                                  ipcpLocal := was.phase.ipcpLocal || (protocol == IPCP && mine))
      && Wishes() == was.wishes
    }

    /** A refusal of the outstanding request was followed by a new one with the values it
        proposes. */
    ghost predicate Retried(was: Standing, protocol: nat, id: Byte, data: seq<Byte>)
      reads this
    {
      var mine := id == was.id && if protocol == LCP then was.phase.lcpSent else was.phase.ipcpSent;
      && Asks(if mine then Some(protocol) else None, was.sent, was.id, was.request)
      && State() == was.phase && Wishes() == if mine then Proposed(protocol, was.wishes, data) else was.wishes
    }

    ghost predicate Closed(was: Standing, protocol: nat, id: Byte, data: seq<Byte>)
      reads this
    {
      && Asks(None, was.sent + Whole(Control(protocol, 6, id, data)), was.id, was.request)
      && State() == (if protocol == LCP then Phase(true, false, false, false, false, false, false)
                     else was.phase.(ipcpSent := false, ipcpLocal := false, ipcpPeer := false))
      && Wishes() == was.wishes
    }

    /** What a control packet does, by its code; one that is not well-formed, or of another
        code, does nothing. */
    ghost predicate Handled(was: Standing, protocol: nat, d: seq<Byte>)
      reads this
    {
      if |d| < 4 || d[2] as int * 0x100 + d[3] < 4 || d[2] as int * 0x100 + d[3] > |d| then Now() == was
      else
        var id, data := d[1], d[4..d[2] as int * 0x100 + d[3]];
        match d[0]
        case 1 => Answered(was, protocol, id, data)
        case 2 => Acknowledged(was, protocol, id, data)
        case 3 => Retried(was, protocol, id, data)
        case 5 => Closed(was, protocol, id, data)
        case 9 => Now() == was.(sent := was.sent + Whole(Control(LCP, 10, id, data)))
        case _ => Now() == was
    }

    constructor (ipPeer: Word, ipGuest: Word, dns: Word)
      ensures Valid() && sent == [] && forwarded == []
      ensures State() == Phase(true, false, false, false, false, false, false)
      ensures Wishes() == Values(1500, 0, ipPeer, dns) && this.ipGuest == ipGuest
    {
      commandMode := true;
      lcpSent, lcpLocal, lcpPeer, ipcpSent, ipcpLocal, ipcpPeer := false, false, false, false, false, false;
      lcpId, ipcpId, requestId, request := 0, 0, 0, [];
      lcpMru, lcpAccm := 1500, 0;
      this.ipPeer, this.ipGuest, this.dns := ipPeer, ipGuest, dns;
      sent, forwarded, openAt, upAt := [], [], [], [];
    }

    /** Over-long control packets are not sent at all. */
    method SendControl(protocol: nat, code: Byte, id: Byte, data: seq<Byte>)
      requires Valid() && (protocol == IPCP && code == 1 ==> lcpLocal && lcpPeer)
      modifies this`sent, this`openAt
      ensures Valid()
      ensures sent == old(sent) + Whole(Control(protocol, code, id, data))
      ensures openAt == old(openAt) + (if sent == old(sent) then [] else [lcpLocal && lcpPeer])
    {
      if |data| > 250 {
        return;
      }
      sent := sent + [Control(protocol, code, id, data)];
      openAt := openAt + [lcpLocal && lcpPeer];
    }

    /** Send this end's own Configure-Request and remember it for its answer. */
    method SendConfigure(protocol: nat)
      requires Valid() && (protocol == LCP || protocol == IPCP) && (protocol == IPCP ==> lcpLocal && lcpPeer)
      modifies this`lcpId, this`ipcpId, this`lcpSent, this`ipcpSent, this`requestId, this`request, this`sent,
               this`openAt
      ensures Valid() && Asks(Some(protocol), old(sent), old(requestId), old(request))
      ensures requestId == old(if protocol == LCP then lcpId + 1 else ipcpId + 1) % 256
      ensures
        var os := OwnOptions(protocol, lcpMru, lcpAccm, ipPeer, dns);
        request == os[0] + os[1]
      ensures State() == WithRequest(old(State()), Some(protocol))
    {
      hide Parse, Word4, LoadBE, OwnOptions, Ordered;
      OwnBytes(lcpMru, lcpAccm, ipPeer, dns);
      OwnOptionsBack(protocol, lcpMru, lcpAccm, ipPeer, dns);
      var id, options;
      if protocol == LCP {
        lcpId := (lcpId + 1) % 256;
        id := lcpId;
        options := [1, 4, lcpMru / 0x100, lcpMru % 0x100, 2, 6] + Word4(lcpAccm);
        lcpSent := true;
      } else {
        ipcpId := (ipcpId + 1) % 256;
        id := ipcpId;
        options := [3, 6] + Word4(ipPeer) + [129, 6] + Word4(dns);
        ipcpSent := true;
      }
      requestId := id;
      request := options;
      assert |options| <= 250;
      SendControl(protocol, 1, id, options);
    }

    /** Judge a Configure-Request option by option. */
    method Judge(protocol: nat, opt: seq<Byte>) returns (reply: Reply)
      requires protocol == LCP || protocol == IPCP
      ensures reply == ReplyTo(protocol, ipGuest, dns, opt)
    {
      hide Parse, Rejects, Naks, LoadBE, AddressSeen, Word4;
      var reject: seq<Byte>, nak: seq<Byte> := [], [];
      var addressSeen := false;
      var at := 0;
      ghost var os: seq<Opt> := [];
      ScanStart(opt);
      NoOptions(protocol, ipGuest, dns);
      while at < |opt|
        invariant Scanned(opt, at, os)
        invariant reject == Rejects(protocol, os) && nak == Naks(protocol, ipGuest, dns, os)
        invariant addressSeen == AddressSeen(protocol, os)
        decreases |opt| - at
      {
        if |opt| - at < 2 || opt[at + 1] < 2 || opt[at + 1] > |opt| - at {
          ParseFails(opt, at);
          return Malformed;
        }
        var n := opt[at + 1];
        var o: Opt := opt[at..at + n];
        ScanNext(opt, at, os);
        RejectsNext(protocol, os, o);
        NaksNext(protocol, ipGuest, dns, os, o);
        SeenNext(protocol, os, o);
        os := os + [o];
        var refused, seen, want := JudgeOne(protocol, o);
        reject := reject + (if refused then o else []);
        nak := nak + want;
        addressSeen := addressSeen || seen;
        at := at + n;
      }
      assert Parse(opt) == Some(os) by { ScanEnd(opt, at, os); }
      if protocol == IPCP && !addressSeen {
        nak := nak + ([3, 6] + Word4(ipGuest));
      }
      reply := if reject != [] then Reject(reject) else if nak != [] then Nak(nak) else Ack;
    }

    /** Judge one option: whether it is refused, whether it is the address, and the value
        wanted instead. */
    method JudgeOne(protocol: nat, o: Opt) returns (refused: bool, seen: bool, want: seq<Byte>)
      requires protocol == LCP || protocol == IPCP
      ensures refused == Rejected(protocol, o) && seen == IsAddress(protocol, o)
      ensures want == if Unwanted(protocol, ipGuest, dns, o) then Wanted(protocol, ipGuest, dns, o).value else []
    {
      hide LoadBE, Word4;
      refused, seen, want := false, false, [];
      var kind, n := o[0], |o|;
      if protocol == LCP {
        if kind == 3 || (kind != 1 && kind != 2 && kind != 5 && kind != 7 && kind != 8) {
          refused := true;
        }
      } else if kind == 3 && n == 6 {
        seen := true;
        if LoadBE(o, 2, 4) != ipGuest {
          want := [3, 6] + Word4(ipGuest);
        }
      } else if (kind == 129 || kind == 131) && n == 6 {
        if LoadBE(o, 2, 4) != dns {
          want := [kind, 6] + Word4(dns);
        }
      } else {
        refused := true;
      }
    }

    /** Answer the guest's Configure-Request, and go on to the next phase when it is
        acknowledged. */
    method ConfigureRequest(protocol: nat, id: Byte, opt: seq<Byte>)
      requires Valid() && (protocol == LCP || protocol == IPCP)
      modifies this`lcpId, this`ipcpId, this`lcpSent, this`ipcpSent, this`requestId, this`request, this`sent,
               this`openAt,
               this`lcpPeer, this`ipcpPeer
      ensures Valid() && Answered(old(Now()), protocol, id, opt)
    {
      NoRequest(State());
      hide ReplyTo, Parse, OwnOptions, Whole, AfterPeer, Ordered, WithRequest, ReplyPacket;
      var reply := Judge(protocol, opt);
      SendReply(protocol, id, opt, reply);
      if reply.Ack? {
        PeerConfigured(protocol);
      }
    }

    method SendReply(protocol: nat, id: Byte, opt: seq<Byte>, reply: Reply)
      requires Valid()
      modifies this`sent, this`openAt
      ensures Valid() && sent == old(sent) + Whole(ReplyPacket(protocol, id, opt, reply))
    {
      hide Parse, OwnOptions, Whole, Ordered;
      match reply
      case Malformed => SendControl(protocol, 4, id, opt);
      case Reject(data) => SendControl(protocol, 4, id, data);
      case Nak(data) => SendControl(protocol, 3, id, data);
      case Ack => SendControl(protocol, 2, id, opt);
    }

    /** The guest's request stands: open this direction, and start what was waiting. */
    method PeerConfigured(protocol: nat)
      requires Valid() && (protocol == LCP || protocol == IPCP)
      modifies this`lcpId, this`ipcpId, this`lcpSent, this`ipcpSent, this`requestId, this`request, this`sent,
               this`openAt,
               this`lcpPeer, this`ipcpPeer
      ensures
        var next := AfterPeer(protocol, old(State()));
        && Valid() && Asks(next, old(sent), old(requestId), old(request))
        && State() == WithRequest(old(State()), next).(lcpPeer := old(lcpPeer) || protocol == LCP,
                                                       ipcpPeer := old(ipcpPeer) || protocol == IPCP)
    {
      hide Parse, OwnOptions, Ordered;
      if protocol == LCP {
        lcpPeer := true;
        if !lcpSent {
          SendConfigure(LCP);
        }
        if lcpLocal && !ipcpSent {
          SendConfigure(IPCP);
        }
      } else {
        ipcpPeer := true;
      }
    }

    /** The guest acknowledged a request: ours, to the letter, or another. */
    method ConfigureAck(protocol: nat, id: Byte, data: seq<Byte>)
      requires Valid() && (protocol == LCP || protocol == IPCP)
      modifies this`lcpId, this`ipcpId, this`lcpSent, this`ipcpSent, this`requestId, this`request, this`sent,
               this`openAt,
               this`lcpLocal, this`ipcpLocal
      ensures Valid() && Acknowledged(old(Now()), protocol, id, data)
    {
      hide Parse, OwnOptions, Ordered;
      if protocol == LCP && lcpSent && id == requestId && data == request {
        lcpLocal := true;
        if lcpPeer && !ipcpSent {
          SendConfigure(IPCP);
        }
      } else if protocol == IPCP && ipcpSent && id == requestId && data == request {
        ipcpLocal := true;
      }
    }

    /** Take over the values a Configure-Nak proposes, and ask again. */
    method ConfigureNak(protocol: nat, id: Byte, data: seq<Byte>)
      requires Valid() && (protocol == LCP || protocol == IPCP)
      modifies this`lcpId, this`ipcpId, this`lcpSent, this`ipcpSent, this`requestId, this`request, this`sent,
               this`openAt,
               this`lcpMru, this`lcpAccm, this`ipPeer, this`dns
      ensures Valid() && Retried(old(Now()), protocol, id, data)
    {
      hide Parse, OwnOptions, Ordered;
      if id == requestId {
        if protocol == LCP && lcpSent {
          TakeLcp(data);
          SendConfigure(LCP);
        } else if protocol == IPCP && ipcpSent {
          TakeIpcp(data);
          SendConfigure(IPCP);
        }
      }
    }

    method TakeLcp(data: seq<Byte>)
      requires Valid()
      modifies this`lcpMru, this`lcpAccm
      ensures Valid() && Wishes() == Proposed(LCP, old(Wishes()), data)
    {
      hide LoadBE, Latest, Readable, Ordered;
      var at := 0;
      ghost var os: seq<Opt> := [];
      ReadStart(data);
      NothingLatest();
      while at + 2 <= |data|
        invariant at <= |data| && Valid() && Readable(data) == os + Readable(data[at..])
        invariant Wishes() == ProposedFrom(LCP, old(Wishes()), os)
        decreases |data| - at
      {
        var n := data[at + 1];
        if n < 2 || n > |data| - at {
          break;
        }
        var o: Opt := data[at..at + n];
        ReadNext(data, at, os);
        LatestNext(os, o, {1}, 4);
        LatestNext(os, o, {2}, 6);
        os := os + [o];
        if data[at] == 1 && n == 4 {
          lcpMru := Be16(o, 2);
        }
        if data[at] == 2 && n == 6 {
          lcpAccm := LoadBE(o, 2, 4);
        }
        at := at + n;
      }
      ReadEnd(data, at, os);
    }

    method TakeIpcp(data: seq<Byte>)
      requires Valid()
      modifies this`ipPeer, this`dns
      ensures Valid() && Wishes() == Proposed(IPCP, old(Wishes()), data)
    {
      hide LoadBE, Latest, Readable, Ordered;
      var at := 0;
      ghost var os: seq<Opt> := [];
      ReadStart(data);
      NothingLatest();
      while at + 2 <= |data|
        invariant at <= |data| && Valid() && Readable(data) == os + Readable(data[at..])
        invariant Wishes() == ProposedFrom(IPCP, old(Wishes()), os)
        decreases |data| - at
      {
        var n := data[at + 1];
        if n < 2 || n > |data| - at {
          break;
        }
        var o: Opt := data[at..at + n];
        ReadNext(data, at, os);
        LatestNext(os, o, {3}, 6);
        LatestNext(os, o, {129, 131}, 6);
        os := os + [o];
        if n == 6 && (data[at] == 3 || data[at] == 129 || data[at] == 131) {
          var value := LoadBE(o, 2, 4);
          if data[at] == 3 {
            ipPeer := value;
          } else {
            dns := value;
          }
        }
        at := at + n;
      }
      ReadEnd(data, at, os);
    }

    method CloseBoth()
      requires Valid()
      modifies this`lcpSent, this`lcpLocal, this`lcpPeer, this`ipcpSent, this`ipcpLocal, this`ipcpPeer
      ensures Valid() && State() == Phase(commandMode, false, false, false, false, false, false)
    {
      lcpSent, lcpLocal, lcpPeer := false, false, false;
      ipcpSent, ipcpLocal, ipcpPeer := false, false, false;
    }

    /** A terminated layer takes everything above it down. */
    method Terminate(protocol: nat, id: Byte, data: seq<Byte>)
      requires Valid() && (protocol == LCP || protocol == IPCP)
      modifies this`sent, this`openAt, this`lcpSent, this`lcpLocal, this`lcpPeer, this`ipcpSent, this`ipcpLocal,
               this`ipcpPeer,
               this`commandMode
      ensures Valid() && Closed(old(Now()), protocol, id, data)
    {
      hide Parse, OwnOptions, Whole, Ordered;
      SendControl(protocol, 6, id, data);
      if protocol == LCP {
        CloseBoth();
        commandMode := true;
      } else {
        ipcpSent, ipcpLocal, ipcpPeer := false, false, false;
      }
    }

    method ControlPacket(protocol: nat, d: seq<Byte>)
      requires Valid() && (protocol == LCP || protocol == IPCP)
      modifies this
      ensures Valid() && forwarded == old(forwarded) && upAt == old(upAt) && Handled(old(Now()), protocol, d)
    {
      hide Answered, Acknowledged, Retried, Closed, Ordered;
      if |d| < 4 || Be16(d, 2) < 4 || Be16(d, 2) > |d| {
        return;
      }
      var id, data := d[1], d[4..Be16(d, 2)];
      if d[0] == 1 {
        ConfigureRequest(protocol, id, data);
      } else if d[0] == 2 {
        ConfigureAck(protocol, id, data);
      } else if d[0] == 3 {
        ConfigureNak(protocol, id, data);
      } else if d[0] == 5 {
        Terminate(protocol, id, data);
      } else if d[0] == 9 {
        SendControl(LCP, 10, id, data);
      }
    }

    /** Both layers are open, both ways. */
    predicate Up()
      reads this
    {
      lcpLocal && lcpPeer && ipcpLocal && ipcpPeer
    }

    /** Dispatch a received packet: control packets move the negotiation, IPv4 is forwarded
        only while both layers are open, and anything else is dropped. */
    method Receive(protocol: nat, payload: seq<Byte>)
      requires Valid()
      modifies this
      ensures Valid()
      ensures if protocol == LCP || protocol == IPCP then Handled(old(Now()), protocol, payload)
              else Now() == old(Now())
      ensures forwarded == old(forwarded) + (if protocol == IPV4 && old(Up()) then [payload] else [])
      ensures upAt == old(upAt) + (if forwarded == old(forwarded) then [] else [true])
    {
      hide Handled;
      if protocol == LCP || protocol == IPCP {
        ControlPacket(protocol, payload);
      } else if protocol == IPV4 && lcpLocal && lcpPeer && ipcpLocal && ipcpPeer {
        forwarded := forwarded + [payload];
        upAt := upAt + [Up()];
      }
    }

    /** A dial command starts over with this end's LCP request. */
    method StartDial()
      requires Valid()
      modifies this
      ensures Valid() && State() == Phase(false, true, false, false, false, false, false)
      ensures Asks(Some(LCP), old(sent), old(requestId), old(request))
      ensures Wishes() == old(Wishes()) && forwarded == old(forwarded)
    {
      hide Parse, OwnOptions, Ordered;
      CloseBoth();
      request := [];
      commandMode := false;
      if !lcpSent {
        SendConfigure(LCP);
      }
    }
  }

  lemma NoRequest(p: Phase)
    ensures WithRequest(p, None) == p
  {
  }

  lemma ReadStart(data: seq<Byte>)
    ensures Readable(data) == [] + Readable(data[0..])
  {
    assert data[0..] == data;
  }

  lemma ReadNext(data: seq<Byte>, at: nat, os: seq<Opt>)
    requires at + 2 <= |data| && 2 <= data[at + 1] <= |data| - at
    requires Readable(data) == os + Readable(data[at..])
    ensures Readable(data) == (os + [data[at..at + data[at + 1]]]) + Readable(data[at + data[at + 1]..])
  {
    ReadOne(data, at);
    hide Readable;
    var o: Opt := data[at..at + data[at + 1]];
    var tail := Readable(data[at + data[at + 1]..]);
    assert os + ([o] + tail) == os + [o] + tail;
  }

  lemma ReadOne(data: seq<Byte>, at: nat)
    requires at + 2 <= |data| && 2 <= data[at + 1] <= |data| - at
    ensures Readable(data[at..]) == [data[at..at + data[at + 1]]] + Readable(data[at + data[at + 1]..])
  {
    var n := data[at + 1];
    assert data[at..][n..] == data[at + n..] && data[at..][..n] == data[at..at + n];
  }

  lemma ReadEnd(data: seq<Byte>, at: nat, os: seq<Opt>)
    requires at <= |data| && Readable(data) == os + Readable(data[at..])
    requires |data| - at < 2 || data[at + 1] < 2 || data[at + 1] > |data| - at
    ensures Readable(data) == os
  {
    assert Readable(data[at..]) == [];
  }

  lemma NothingLatest()
    ensures Latest([], {1}, 4).None? && Latest([], {2}, 6).None?
    ensures Latest([], {3}, 6).None? && Latest([], {129, 131}, 6).None?
  {
  }

  lemma NoOptions(protocol: nat, guest: Word, dns: Word)
    ensures Rejects(protocol, []) == [] && Naks(protocol, guest, dns, []) == [] && !AddressSeen(protocol, [])
  {
  }

  lemma ParseFails(opt: seq<Byte>, at: nat)
    requires at < |opt| && (|opt| - at < 2 || opt[at + 1] < 2 || opt[at + 1] > |opt| - at)
    ensures Parse(opt[at..]).None?
  {
  }

  lemma ScanEnd(opt: seq<Byte>, at: nat, os: seq<Opt>)
    requires Scanned(opt, at, os) && at == |opt|
    ensures Parse(opt) == Some(os)
  {
    assert opt[at..] == [];
    assert os + [] == os;
  }
}
