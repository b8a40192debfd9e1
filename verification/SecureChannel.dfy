/** proto/SecureChannel.cpp: length-framed authenticated messages with the message counter as associated
    data. The cipher is ideal: a packet opens only under the key and counter it was sealed with, and
    nobody but the two ends makes packets that open. */
module SecureChannel {
  import opened Wrappers

  /** The two keys of a session. crypto_kx gives each end the other's pair the other way round. */
  datatype Key = ToServer(session: nat) | ToClient(session: nat)

  datatype Packet = Sealed(key: Key, nonce: nat, counter: nat, plain: string) | Junk(bytes: string)

  const MAX_MESSAGE_SIZE := 10 * 1024 * 1024

  const NONCE_AND_TAG := 12 + 16

  const COUNTERS := 0x1_0000_0000_0000_0000

  /** What the bytes of a packet number: nonce, text and tag. */
  function Size(p: Packet): nat {
    match p
    case Sealed(_, _, _, plain) => |plain| + NONCE_AND_TAG
    case Junk(bytes) => |bytes|
  }

  /** One end of the channel. `open` is the connection below it, which any failure closes. */
  datatype Channel = Channel(secure: bool, open: bool, txKey: Key, rxKey: Key, txSeq: nat, rxSeq: nat)

  function Seal(c: Channel, nonce: nat, data: string): Packet {
    Sealed(c.txKey, nonce, c.txSeq, data)
  }

  predicate Opens(c: Channel, p: Packet) {
    p.Sealed? && p.key == c.rxKey && p.counter == c.rxSeq
  }

  /** How the two writes of a send end. A body that fails may still have left the process. */
  datatype Writing = Complete | HeaderFails | BodyFails(escaped: bool)

  /** The result of a send: the packet that may have left, or the text that left in clear. */
  datatype Sending = Sending(ok: bool, channel: Channel, packet: Option<Packet>, clear: Option<string>)

  /** SecureChannel::Send. */
  function SendStep(c: Channel, data: string, nonce: nat, w: Writing): Sending {
    if |data| > MAX_MESSAGE_SIZE then Sending(false, c, None, None)
    else if !c.secure then
      if !c.open || data == "" then Sending(false, c, None, None)
      else if !w.Complete? then Sending(false, c.(open := false), None, None)
      else Sending(true, c, None, Some(data))
    else if !c.open || w.HeaderFails? then Sending(false, c.(open := false), None, None)
    else if w.BodyFails? then
      Sending(false, c.(open := false), if w.escaped then Some(Seal(c, nonce, data)) else None, None)
    else Sending(true, c.(txSeq := (c.txSeq + 1) % COUNTERS), Some(Seal(c, nonce, data)), None)
  }

  /** What the connection hands to a receive: nothing, a line in clear, the length of a frame alone, or a
      length and that many bytes. */
  datatype Reading = Nothing | Line(text: string) | HeaderOnly(length: nat) | Whole(packet: Packet)

  /** The length of a frame, as four bytes carry it. */
  function Announced(p: Packet): nat {
    Size(p) % 0x1_0000_0000
  }

  datatype Receiving = Receiving(channel: Channel, plain: Option<string>)

  /** SecureChannel::Receive, up to the decrypted text. */
  function ReceiveStep(c: Channel, r: Reading): Receiving {
    if !c.secure then
      if c.open && r.Line? then Receiving(c, Some(r.text)) else Receiving(c.(open := false), None)
    else if !c.open || r.Nothing? || r.Line? then Receiving(c.(open := false), None)
    else
      var length := if r.HeaderOnly? then r.length else Announced(r.packet);
      if length == 0 || length > MAX_MESSAGE_SIZE then Receiving(c, None)
      else if r.HeaderOnly? then Receiving(c.(open := false), None)
      else if Size(r.packet) >= NONCE_AND_TAG && Opens(c, r.packet) then
        Receiving(c.(rxSeq := (c.rxSeq + 1) % COUNTERS), Some(r.packet.plain))
      else Receiving(c, None)
  }

  /** The text that Receive hands out: a final LF and then a final CR are dropped. */
  function Unterminated(s: string): string {
    var t := if s != "" && s[|s| - 1] == '\n' then s[..|s| - 1] else s;
    if t != "" && t[|t| - 1] == '\r' then t[..|t| - 1] else t
  }

  // ---------------------------------------------------------------- the object

  class SecureEnd {
    var secure: bool
    var open: bool
    var txKey: Key
    var rxKey: Key
    var txSeq: nat
    var rxSeq: nat

    function Value(): Channel
      reads this
    {
      Channel(secure, open, txKey, rxKey, txSeq, rxSeq)
    }

    /** A channel over an open connection, in clear. */
    constructor ()
      ensures !secure && open && txSeq == 0 && rxSeq == 0
    {
      secure, open := false, true;
      txKey, rxKey := ToServer(0), ToClient(0);
      txSeq, rxSeq := 0, 0;
    }

    /** One public key sent or received; a transfer that fails closes the connection. */
    method Transfer(completes: bool) returns (ok: bool)
      modifies this`open
      ensures ok == open == (old(open) && completes)
    {
      open := open && completes;
      ok := open;
    }

    /** ClientSecureChannel::StartTLS: send, receive, derive. `session` is what the two public keys agree
        on, None where they are refused. */
    method StartTlsAsClient(sends: bool, receives: bool, session: Option<nat>) returns (ok: bool)
      modifies this
      ensures ok <==> !old(secure) && old(open) && sends && receives && session.Some?
      ensures open <==> old(open) && (old(secure) || (sends && receives))
      ensures ok ==>
                Value() == Channel(true, true, ToServer(session.value), ToClient(session.value), old(txSeq), old(rxSeq))
      ensures !ok ==> Value() == old(Value()).(open := open)
    {
      if secure {
        return false;
      }
      ok := Transfer(sends);
      if ok {
        ok := Transfer(receives);
      }
      if !ok || session.None? {
        return false;
      }
      txKey, rxKey := ToServer(session.value), ToClient(session.value);
      secure := true;
    }

    /** ServerSecureChannel::StartTLS: receive, derive, send. The keys are in place before the last send,
        which may still fail. */
    method StartTlsAsServer(receives: bool, session: Option<nat>, sends: bool) returns (ok: bool)
      modifies this
      ensures ok <==> !old(secure) && old(open) && sends && receives && session.Some?
      ensures open <==> old(open) && (old(secure) || (receives && (sends || session.None?)))
      ensures if old(secure) || !old(open) || !receives || session.None? then Value() == old(Value()).(open := open)
              else
                Value() == Channel(ok, open, ToClient(session.value), ToServer(session.value), old(txSeq), old(rxSeq))
    {
      if secure {
        return false;
      }
      ok := Transfer(receives);
      if !ok || session.None? {
        return false;
      }
      txKey, rxKey := ToClient(session.value), ToServer(session.value);
      ok := Transfer(sends);
      secure := ok;
    }

    method Encrypt(data: string, nonce: nat) returns (p: Packet)
      ensures p == Seal(Value(), nonce, data)
    {
      p := Sealed(txKey, nonce, txSeq, data);
    }

    method Decrypt(p: Packet) returns (plain: Option<string>)
      modifies this`rxSeq
      ensures plain == if Size(p) >= NONCE_AND_TAG && old(Opens(Value(), p)) then Some(p.plain) else None
      ensures rxSeq == if plain.Some? then (old(rxSeq) + 1) % COUNTERS else old(rxSeq)
    {
      if Size(p) < NONCE_AND_TAG {
        return None;
      }
      if p.Junk? || p.key != rxKey || p.counter != rxSeq {
        return None;
      }
      rxSeq := (rxSeq + 1) % COUNTERS;
      plain := Some(p.plain);
    }

    method Send(data: string, nonce: nat, w: Writing) returns (ok: bool, packet: Option<Packet>, clear: Option<string>)
      modifies this
      ensures Sending(ok, Value(), packet, clear) == SendStep(old(Value()), data, nonce, w)
    {
      ok, packet, clear := false, None, None;
      if |data| > MAX_MESSAGE_SIZE {
        return;
      }
      if !secure {
        ok := SendClear(data, w);
        clear := if ok then Some(data) else None;
        return;
      }
      var sealed := Encrypt(data, nonce);
      if !open || w.HeaderFails? {
        open := false;
        return;
      }
      if w.BodyFails? {
        open := false;
        packet := if w.escaped then Some(sealed) else None;
        return;
      }
      packet := Some(sealed);
      txSeq := (txSeq + 1) % COUNTERS;
      ok := true;
    }

    /** SocketConnection::Send, as far as the channel can tell. */
    method SendClear(data: string, w: Writing) returns (ok: bool)
      modifies this`open
      ensures ok == (old(open) && data != "" && w.Complete?)
      ensures open == (old(open) && (data == "" || w.Complete?))
    {
      if !open || data == "" {
        return false;
      }
      if !w.Complete? {
        open := false;
        return false;
      }
      ok := true;
    }

    method Receive(r: Reading) returns (data: Option<string>)
      modifies this
      ensures var step := ReceiveStep(old(Value()), r);
              && Value() == step.channel
              && data == if step.plain.None? then None
                         else if old(secure) then Some(Unterminated(step.plain.value)) else step.plain
    {
      if !secure {
        if open && r.Line? {
          return Some(r.text);
        }
        open := false;
        return None;
      }
      if !open || r.Nothing? || r.Line? {
        open := false;
        return None;
      }
      var length := if r.HeaderOnly? then r.length else Announced(r.packet);
      if length == 0 || length > MAX_MESSAGE_SIZE {
        return None;
      }
      if r.HeaderOnly? {
        open := false;
        return None;
      }
      var plain := Decrypt(r.packet);
      if plain.None? {
        return None;
      }
      var text := plain.value;
      if text != "" && text[|text| - 1] == '\n' { text := text[..|text| - 1]; }
      if text != "" && text[|text| - 1] == '\r' { text := text[..|text| - 1]; }
      data := Some(text);
    }
  }

  // ------------------------------------------------------ two ends, one network

  /** One end with its history: the packets that left it, the texts its sends reported as sent, and
      the texts it accepted. */
  datatype End = End(channel: Channel, sealed: seq<Packet>, sent: seq<string>, accepted: seq<string>)

  datatype System = System(client: End, server: End)

  datatype Party = Client | Server

  function At(s: System, who: Party): End {
    if who.Client? then s.client else s.server
  }

  function Peer(who: Party): Party {
    if who.Client? then Server else Client
  }

  function With(s: System, who: Party, e: End): System {
    if who.Client? then s.(client := e) else s.(server := e)
  }

  function Start(session: nat): System {
    System(End(Channel(true, true, ToServer(session), ToClient(session), 0, 0), [], [], []),
           End(Channel(true, true, ToClient(session), ToServer(session), 0, 0), [], [], []))
  }

  /** Two new channels whose exchange of keys completes stand where every run starts. */
  method Handshake(session: nat) returns (client: SecureEnd, server: SecureEnd)
    ensures fresh(client) && fresh(server) && client != server
    ensures System(End(client.Value(), [], [], []), End(server.Value(), [], [], [])) == Start(session)
  {
    client := new SecureEnd();
    server := new SecureEnd();
    var agreed := client.StartTlsAsClient(true, true, Some(session));
    agreed := server.StartTlsAsServer(true, Some(session), true);
  }

  datatype Event =
    | Sends(who: Party, data: string, nonce: nat, writing: Writing)
    | Receives(who: Party, reading: Reading)

  /** The network may hand out any junk, and any packet that ever left either end: late, twice, out of
      order, or back to its sender. */
  predicate Possible(s: System, e: Event) {
    e.Receives? ==> Offered(s.client.sealed + s.server.sealed, e.reading)
  }

  predicate Offered(wire: seq<Packet>, r: Reading) {
    r.Whole? && r.packet.Sealed? ==> r.packet in wire
  }

  function AfterSend(e: End, data: string, nonce: nat, w: Writing): End {
    var step := SendStep(e.channel, data, nonce, w);
    e.(channel := step.channel,
       sealed := if step.packet.Some? then e.sealed + [step.packet.value] else e.sealed,
       sent := if step.ok then e.sent + [data] else e.sent)
  }

  function AfterReceive(e: End, r: Reading): End {
    var step := ReceiveStep(e.channel, r);
    e.(channel := step.channel,
       accepted := if step.plain.Some? then e.accepted + [step.plain.value] else e.accepted)
  }

  function Next(s: System, e: Event): System {
    match e
    case Sends(who, data, nonce, writing) => With(s, who, AfterSend(At(s, who), data, nonce, writing))
    case Receives(who, reading) => With(s, who, AfterReceive(At(s, who), reading))
  }

  /** A run: every event possible in the state it meets. */
  ghost predicate IsRun(s: System, events: seq<Event>, t: System)
    decreases |events|
  {
    if events == [] then t == s
    else Possible(s, events[0]) && IsRun(Next(s, events[0]), events[1..], t)
  }

  /** Neither end has used up its counters. */
  predicate Fresh(s: System) {
    |s.client.sealed| < COUNTERS && |s.server.sealed| < COUNTERS
  }

  /** The text of a packet that an end has sealed. */
  function TextOf(p: Packet): string {
    if p.Sealed? then p.plain else p.bytes
  }

  function Plains(packets: seq<Packet>): (r: seq<string>)
    ensures |r| == |packets| && forall i :: 0 <= i < |r| ==> r[i] == TextOf(packets[i])
  {
    seq(|packets|, i requires 0 <= i < |packets| => TextOf(packets[i]))
  }

  lemma PlainsSnoc(packets: seq<Packet>, p: Packet)
    ensures Plains(packets + [p]) == Plains(packets) + [TextOf(p)]
  {
    hide TextOf;
  }

  /** A packet with this key and number, of a size that Send takes. */
  predicate IsPacket(p: Packet, key: Key, counter: nat) {
    p.Sealed? && p.key == key && p.counter == counter && |p.plain| <= MAX_MESSAGE_SIZE
  }

  ghost predicate AllNumbered(sealed: seq<Packet>, key: Key) {
    forall i :: 0 <= i < |sealed| ==> IsPacket(sealed[i], key, i)
  }

  /** What the sends reported is what left, but for one last packet whose write failed. */
  ghost predicate Reported(sealed: seq<Packet>, sent: seq<string>, open: bool) {
    Plains(sealed) == sent || (!open && sealed != [] && Plains(sealed[..|sealed| - 1]) == sent)
  }

  /** The packets that left an end carry its key and count up from zero. */
  ghost predicate Numbered(e: End) {
    && AllNumbered(e.sealed, e.channel.txKey)
    && (e.channel.open ==> e.channel.txSeq == |e.sealed|)
    && Reported(e.sealed, e.sent, e.channel.open)
  }

  /** What an end accepted is the beginning of what left its peer, in order. */
  ghost predicate InStep(e: End, peer: End) {
    && e.channel.rxSeq == |e.accepted| && e.channel.rxKey == peer.channel.txKey && e.channel.txKey != peer.channel.txKey
    && e.accepted <= Plains(peer.sealed)
  }

  ghost predicate Good(s: System) {
    && s.client.channel.secure && s.server.channel.secure
    && Numbered(s.client) && Numbered(s.server)
    && InStep(s.client, s.server) && InStep(s.server, s.client)
  }

  lemma NumberedSnoc(sealed: seq<Packet>, p: Packet, key: Key)
    requires AllNumbered(sealed, key) && IsPacket(p, key, |sealed|)
    ensures AllNumbered(sealed + [p], key)
  {
    hide IsPacket;
  }

  lemma ReportedSnoc(sealed: seq<Packet>, p: Packet, sent: seq<string>)
    requires Reported(sealed, sent, true)
    ensures Reported(sealed + [p], sent + [TextOf(p)], true) && Reported(sealed + [p], sent, false)
    ensures Reported(sealed, sent, false)
    ensures Plains(sealed) <= Plains(sealed + [p])
  {
    PlainsSnoc(sealed, p);
    hide Plains, TextOf;
    assert (sealed + [p])[..|sealed|] == sealed;
  }

  lemma SealIsPacket(c: Channel, nonce: nat, data: string)
    requires |data| <= MAX_MESSAGE_SIZE
    ensures IsPacket(Seal(c, nonce, data), c.txKey, c.txSeq) && TextOf(Seal(c, nonce, data)) == data
  {
  }

  lemma SendKeepsNumbered(e: End, data: string, nonce: nat, w: Writing)
    requires e.channel.secure && Numbered(e) && |AfterSend(e, data, nonce, w).sealed| < COUNTERS
    ensures Numbered(AfterSend(e, data, nonce, w))
    ensures Plains(e.sealed) <= Plains(AfterSend(e, data, nonce, w).sealed)
  {
    hide AllNumbered, Reported, Plains, IsPacket, TextOf, Seal;
    var p := Seal(e.channel, nonce, data);
    if |data| <= MAX_MESSAGE_SIZE && e.channel.open {
      SealIsPacket(e.channel, nonce, data);
      NumberedSnoc(e.sealed, p, e.channel.txKey);
      ReportedSnoc(e.sealed, p, e.sent);
    } else {
      ReportedClosed(e.sealed, e.sent, e.channel.open);
    }
  }

  lemma ReportedClosed(sealed: seq<Packet>, sent: seq<string>, open: bool)
    requires Reported(sealed, sent, open)
    ensures Reported(sealed, sent, false)
  {
    hide Plains;
  }

  /** Which readings a receiver accepts, exactly: the packet its peer sent next, if the frame limit
      lets it through. */
  lemma AcceptsExactlyNext(e: End, peer: End, r: Reading)
    requires e.channel.secure && Numbered(e) && Numbered(peer) && InStep(e, peer) && |e.sealed| < COUNTERS
            && |peer.sealed| < COUNTERS
    requires Offered(e.sealed + peer.sealed, r)
    ensures var n := |e.accepted|;
            var plain := ReceiveStep(e.channel, r).plain;
            && (plain.Some? <==>
                  && e.channel.open && r.Whole? && n < |peer.sealed| && r.packet == peer.sealed[n]
                  && |TextOf(peer.sealed[n])| <= MAX_MESSAGE_SIZE - NONCE_AND_TAG)
            && (plain.Some? ==> plain.value == TextOf(peer.sealed[n]))
  {
    hide Reported, Plains;
    assert r.Whole? && r.packet.Sealed? ==> r.packet in e.sealed || r.packet in peer.sealed;
    assert forall i :: 0 <= i < |e.sealed| ==> IsPacket(e.sealed[i], e.channel.txKey, i);
    assert forall i :: 0 <= i < |peer.sealed| ==> IsPacket(peer.sealed[i], peer.channel.txKey, i);
  }

  lemma ReceiveKeepsInStep(e: End, peer: End, r: Reading)
    requires e.channel.secure && Numbered(e) && Numbered(peer) && InStep(e, peer) && |e.sealed| < COUNTERS
            && |peer.sealed| < COUNTERS
    requires Offered(e.sealed + peer.sealed, r)
    ensures InStep(AfterReceive(e, r), peer)
  {
    AcceptsExactlyNext(e, peer, r);
    CountsUp(e.channel, r);
    ReceiveKeepsChannel(e, r);
    hide Numbered, ReceiveStep, TextOf;
    var n, all := |e.accepted|, Plains(peer.sealed);
    if ReceiveStep(e.channel, r).plain.Some? {
      assert e.accepted + [all[n]] <= all;
    }
  }

  lemma CountsUp(c: Channel, r: Reading)
    requires c.secure
    ensures var step := ReceiveStep(c, r);
            step.channel.rxSeq == if step.plain.Some? then (c.rxSeq + 1) % COUNTERS else c.rxSeq
  {
  }

  lemma ReceiveKeepsNumbered(e: End, r: Reading)
    requires Numbered(e)
    ensures Numbered(AfterReceive(e, r))
  {
    ReceiveKeepsChannel(e, r);
    assert AfterReceive(e, r).channel.open ==> e.channel.open;
    ReportedClosed(e.sealed, e.sent, e.channel.open);
    hide ReceiveStep, Reported, AllNumbered;
  }

  lemma NextKeepsGood(s: System, e: Event)
    requires Good(s) && Possible(s, e) && Fresh(Next(s, e))
    ensures Good(Next(s, e))
  {
    hide Numbered, SendStep, ReceiveStep, Plains;
    var end, peer := At(s, e.who), At(s, Peer(e.who));
    if e.Sends? {
      SendKeepsNumbered(end, e.data, e.nonce, e.writing);
      SendKeepsChannel(end, e.data, e.nonce, e.writing);
    } else {
      OfferedEitherWay(s, e.who, e.reading);
      ReceiveKeepsInStep(end, peer, e.reading);
      ReceiveKeepsNumbered(end, e.reading);
      ReceiveKeepsChannel(end, e.reading);
    }
  }

  lemma SendKeepsChannel(e: End, data: string, nonce: nat, w: Writing)
    ensures var c := AfterSend(e, data, nonce, w).channel;
            c.secure == e.channel.secure && c.rxKey == e.channel.rxKey && c.txKey == e.channel.txKey
            && c.rxSeq == e.channel.rxSeq
  {
  }

  lemma ReceiveKeepsChannel(e: End, r: Reading)
    ensures var c := AfterReceive(e, r).channel;
            c.secure == e.channel.secure && c.rxKey == e.channel.rxKey && c.txKey == e.channel.txKey
            && c.txSeq == e.channel.txSeq
  {
  }

  lemma OfferedEitherWay(s: System, who: Party, r: Reading)
    requires Offered(s.client.sealed + s.server.sealed, r)
    ensures Offered(At(s, who).sealed + At(s, Peer(who)).sealed, r)
  {
  }

  /** Histories only grow. */
  lemma NextGrows(s: System, e: Event)
    ensures var t := Next(s, e);
            && s.client.sealed <= t.client.sealed && s.server.sealed <= t.server.sealed
            && s.client.accepted <= t.client.accepted && s.server.accepted <= t.server.accepted
  {
  }

  lemma {:induction false} RunGrows(s: System, events: seq<Event>, t: System)
    requires IsRun(s, events, t)
    ensures s.client.sealed <= t.client.sealed && s.server.sealed <= t.server.sealed
    decreases |events|
  {
    if events != [] {
      NextGrows(s, events[0]);
      RunGrows(Next(s, events[0]), events[1..], t);
    }
  }

  lemma {:induction false} RunKeepsGood(s: System, events: seq<Event>, t: System)
    requires Good(s) && IsRun(s, events, t) && Fresh(t)
    ensures Good(t)
    decreases |events|
  {
    hide Good, Next;
    if events != [] {
      RunGrows(Next(s, events[0]), events[1..], t);
      NextKeepsGood(s, events[0]);
      RunKeepsGood(Next(s, events[0]), events[1..], t);
    }
  }

  /** Over every run and every network: what either end accepted is a prefix of what left the other, in
      order, and that is what the other sent, plus at most one last text whose write failed and closed
      the connection. */
  lemma AcceptedIsPrefixOfSent(session: nat, events: seq<Event>, s: System, who: Party)
    requires IsRun(Start(session), events, s) && Fresh(s)
    ensures var end, peer := At(s, who), At(s, Peer(who));
            && Numbered(peer) && end.accepted <= Plains(peer.sealed)
            && (end.accepted <= peer.sent
                || (!peer.channel.open && |end.accepted| == |peer.sent| + 1 && peer.sent <= end.accepted))
  {
    RunKeepsGood(Start(session), events, s);
    var end, peer := At(s, who), At(s, Peer(who));
    assert Numbered(peer) && InStep(end, peer);
    hide *;
    PrefixOfReported(peer, end.accepted);
  }

  lemma PrefixOfReported(peer: End, accepted: seq<string>)
    requires Numbered(peer) && accepted <= Plains(peer.sealed)
    ensures accepted <= peer.sent
            || (!peer.channel.open && |accepted| == |peer.sent| + 1 && peer.sent <= accepted)
  {
    var sealed, sent := peer.sealed, peer.sent;
    if Plains(sealed) != sent {
      PlainsSnoc(sealed[..|sealed| - 1], sealed[|sealed| - 1]);
      assert sealed[..|sealed| - 1] + [sealed[|sealed| - 1]] == sealed;
    }
    hide Plains, AllNumbered;
  }

  /** A frame of the largest sizes that Send allows never gets through: from then on the receiver
      accepts nothing any more, whatever the network delivers. */
  lemma OversizeBlocks(session: nat, events: seq<Event>, s: System, who: Party, k: nat)
    requires IsRun(Start(session), events, s) && Fresh(s)
    requires k < |At(s, Peer(who)).sealed|
    requires |TextOf(At(s, Peer(who)).sealed[k])| > MAX_MESSAGE_SIZE - NONCE_AND_TAG
    ensures |At(s, who).accepted| <= k
  {
    BoundedStart(session, events, s, who);
  }

  /** Everything accepted so far was within the frame limit. */
  ghost predicate Bounded(s: System, who: Party) {
    forall i :: 0 <= i < |At(s, who).accepted| ==> |At(s, who).accepted[i]| <= MAX_MESSAGE_SIZE - NONCE_AND_TAG
  }

  lemma NextKeepsBounded(s: System, e: Event, who: Party)
    requires Good(s) && Bounded(s, who) && Possible(s, e) && Fresh(s)
    ensures Bounded(Next(s, e), who)
  {
    var end, peer, next := At(s, e.who), At(s, Peer(e.who)), At(Next(s, e), who);
    assert Numbered(end) && Numbered(peer) && InStep(end, peer) && end.channel.secure;
    hide Numbered, InStep, Good, SendStep, ReceiveStep, TextOf;
    if e.Receives? && who == e.who {
      OfferedEitherWay(s, who, e.reading);
      AcceptsExactlyNext(end, peer, e.reading);
      assert next == AfterReceive(end, e.reading);
    } else {
      assert next.accepted == At(s, who).accepted;
    }
  }

  lemma {:induction false} RunKeepsBounded(s: System, events: seq<Event>, t: System, who: Party)
    requires Good(s) && Bounded(s, who) && IsRun(s, events, t) && Fresh(t)
    ensures Bounded(t, who)
    decreases |events|
  {
    if events != [] {
      var e := events[0];
      RunGrows(Next(s, e), events[1..], t);
      NextKeepsGood(s, e);
      NextKeepsBounded(s, e, who);
      hide Good, Bounded, Next;
      RunKeepsBounded(Next(s, e), events[1..], t, who);
    }
  }

  lemma BoundedStart(session: nat, events: seq<Event>, s: System, who: Party)
    requires IsRun(Start(session), events, s) && Fresh(s)
    ensures Bounded(s, who) && Good(s)
  {
    RunKeepsGood(Start(session), events, s);
    RunKeepsBounded(Start(session), events, s, who);
  }

  /** Send and Receive disagree about sizes: of the texts Send takes, exactly the last 28 sizes are
      refused as frames. */
  lemma FrameLimit(c: Channel, data: string, nonce: nat)
    requires c.secure && c.open && |data| <= MAX_MESSAGE_SIZE
    ensures var packet := SendStep(c, data, nonce, Complete).packet;
            && packet.Some?
            && (0 < Announced(packet.value) <= MAX_MESSAGE_SIZE <==> |data| <= MAX_MESSAGE_SIZE - 28)
  {
  }

  /** The packet that the peer sent next, delivered, is accepted. */
  lemma NextDelivered(s: System, who: Party)
    requires Good(s) && Fresh(s) && At(s, who).channel.open
    requires var n := |At(s, who).accepted|;
             n < |At(s, Peer(who)).sealed| && |TextOf(At(s, Peer(who)).sealed[n])| <= MAX_MESSAGE_SIZE - NONCE_AND_TAG
    ensures var packet := At(s, Peer(who)).sealed[|At(s, who).accepted|];
            var e := Receives(who, Whole(packet));
            && Possible(s, e) && Good(Next(s, e)) && Next(s, e) == With(s, who, At(Next(s, e), who))
            && At(Next(s, e), who).channel.open && At(Next(s, e), who).sealed == At(s, who).sealed
            && At(Next(s, e), who).accepted == At(s, who).accepted + [TextOf(packet)]
  {
    var end, peer := At(s, who), At(s, Peer(who));
    var packet := peer.sealed[|end.accepted|];
    var e := Receives(who, Whole(packet));
    assert packet in s.client.sealed + s.server.sealed;
    assert Numbered(end) && Numbered(peer) && InStep(end, peer) && end.channel.secure;
    hide Numbered, Good, ReceiveStep, Plains, TextOf;
    OfferedEitherWay(s, who, Whole(packet));
    AcceptsExactlyNext(end, peer, Whole(packet));
    StaysOpen(end.channel, Whole(packet));
    NextKeepsGood(s, e);
  }

  lemma StaysOpen(c: Channel, r: Reading)
    requires ReceiveStep(c, r).plain.Some?
    ensures ReceiveStep(c, r).channel.open == c.open
  {
  }

  function Deliveries(who: Party, packets: seq<Packet>): seq<Event> {
    if packets == [] then [] else [Receives(who, Whole(packets[0]))] + Deliveries(who, packets[1..])
  }

  ghost predicate AllLegal(e: End) {
    forall i :: 0 <= i < |e.sealed| ==> |TextOf(e.sealed[i])| <= MAX_MESSAGE_SIZE - NONCE_AND_TAG
  }

  /** On a network that delivers every outstanding frame once and in order, everything of legal size arrives:
      what an end has accepted is then all that its peer sent. */
  lemma {:induction false} InOrderDelivery(s: System, who: Party) returns (t: System)
    requires Good(s) && Fresh(s) && At(s, who).channel.open && AllLegal(At(s, Peer(who)))
    ensures |At(s, who).accepted| <= |At(s, Peer(who)).sealed|
    ensures IsRun(s, Deliveries(who, At(s, Peer(who)).sealed[|At(s, who).accepted|..]), t)
    ensures At(t, who).accepted == Plains(At(s, Peer(who)).sealed)
    decreases |At(s, Peer(who)).sealed| - |At(s, who).accepted|
  {
    var end, peer := At(s, who), At(s, Peer(who));
    var n := |end.accepted|;
    hide *;
    AcceptedOfSealed(s, who);
    var rest := peer.sealed[n..];
    if n == |peer.sealed| {
      assert rest == [];
      NoDeliveries(s, who);
      t := s;
    } else {
      LegalStill(s, s, who, n);
      NextDelivered(s, who);
      var s' := Next(s, Receives(who, Whole(peer.sealed[n])));
      OnlyOneMoves(s, s', who);
      LegalStill(s, s', who, n);
      t := InOrderDelivery(s', who);
      assert |At(s', who).accepted| == n + 1 && At(s', Peer(who)).sealed == peer.sealed;
      assert rest[0] == peer.sealed[n] && rest[1..] == peer.sealed[n + 1..];
      DeliveriesRun(s, who, rest, t);
    }
  }

  lemma AcceptedOfSealed(s: System, who: Party)
    requires Good(s)
    ensures |At(s, who).accepted| <= |At(s, Peer(who)).sealed|
    ensures |At(s, who).accepted| == |At(s, Peer(who)).sealed| ==>
            At(s, who).accepted == Plains(At(s, Peer(who)).sealed)
  {
    hide Numbered;
  }

  lemma NoDeliveries(s: System, who: Party)
    ensures IsRun(s, Deliveries(who, []), s)
  {
  }

  lemma OnlyOneMoves(s: System, s': System, who: Party)
    requires s' == With(s, who, At(s', who)) && At(s', who).sealed == At(s, who).sealed && Fresh(s)
    ensures At(s', Peer(who)) == At(s, Peer(who)) && Fresh(s')
  {
  }

  lemma LegalStill(s: System, s': System, who: Party, n: nat)
    requires At(s', Peer(who)) == At(s, Peer(who)) && AllLegal(At(s, Peer(who)))
    requires n < |At(s, Peer(who)).sealed|
    ensures AllLegal(At(s', Peer(who))) && |TextOf(At(s, Peer(who)).sealed[n])| <= MAX_MESSAGE_SIZE - NONCE_AND_TAG
  {
  }

  lemma DeliveriesRun(s: System, who: Party, packets: seq<Packet>, t: System)
    requires packets != [] && Possible(s, Receives(who, Whole(packets[0])))
    requires IsRun(Next(s, Receives(who, Whole(packets[0]))), Deliveries(who, packets[1..]), t)
    ensures IsRun(s, Deliveries(who, packets), t)
  {
    hide Next, Possible;
    var events := Deliveries(who, packets);
    assert events[0] == Receives(who, Whole(packets[0])) && events[1..] == Deliveries(who, packets[1..]);
  }

  /** The bound on messages is needed: after 2^64 of them the counter is zero again and the first packet
      of the session is accepted a second time. */
  lemma WrappedCounterReplays(c: Channel, last: Packet, first: Packet)
    requires c.secure && c.open && c.rxSeq == COUNTERS - 1
    requires last.Sealed? && last.key == c.rxKey && last.counter == COUNTERS - 1 && Size(last) <= MAX_MESSAGE_SIZE
    requires first.Sealed? && first.key == c.rxKey && first.counter == 0 && Size(first) <= MAX_MESSAGE_SIZE
    ensures ReceiveStep(ReceiveStep(c, Whole(last)).channel, Whole(first)).plain == Some(first.plain)
  {
  }
}
