/**
 The DHCP server's lease table: eight addresses, each with the MAC address that holds it and
 an expiry stamp in units of 65536 ms, kept in 16 bits of a 32-bit millisecond clock.
 */
module DhcpServer {
  import opened DhcpOptions

  type Mac = m: seq<Byte> | |m| == 6 witness [0, 0, 0, 0, 0, 0]
  type Ip = a: seq<Byte> | |a| == 4 witness [0, 0, 0, 0]

  const BASE_IP: Byte := 16
  const MAX_IP: nat := 8
  const LEASE_MS: nat := 24 * 60 * 60 * 1000
  const LEASE_S: nat := 24 * 60 * 60
  const WRAP: nat := 0x1_0000_0000
  const NO_MAC: Mac := [0, 0, 0, 0, 0, 0]

  const DISCOVER: Byte := 1
  const OFFER: Byte := 2
  const REQUEST: Byte := 3
  const ACK: Byte := 5

  const OPT_SUBNET_MASK: Byte := 1
  const OPT_ROUTER: Byte := 3
  const OPT_DNS: Byte := 6
  const OPT_REQUESTED_IP: Byte := 50
  const OPT_LEASE_TIME: Byte := 51
  const OPT_MSG_TYPE: Byte := 53
  const OPT_SERVER_ID: Byte := 54

  datatype Lease = Lease(mac: Mac, expiry: nat)

  type Table = t: seq<Lease> | |t| == MAX_IP witness seq(MAX_IP, _ => Lease(NO_MAC, 0))

  datatype Reply = Ignored | Offered(slot: nat) | Acked(slot: nat)

  // ----- time -----

  /** The stamp of a lease granted when the clock shows `ticks`. */
  function Stamp(ticks: nat): (e: nat)
    requires ticks < WRAP
    ensures e < 0x1_0000
  {
    (ticks + LEASE_MS) % WRAP / 0x1_0000
  }

  /** The wrapping comparison of a stamp with the clock: the signed difference is negative. */
  predicate Expired(expiry: nat, ticks: nat) {
    (expiry * 0x1_0000 + 0xffff - ticks) % WRAP >= WRAP / 2
  }

  /** The last millisecond of a lease's stamp: its end rounded up to the end of the 65536 ms unit. */
  function LastValid(from: nat): nat {
    var end := from + LEASE_MS;
    end - end % 0x1_0000 + 0xffff
  }

  /**
   At every later time, the stamp of a lease granted at true time `from` reads as expired in
   the first half of each turn of the 32-bit clock that starts when the lease has run out, and
   as unexpired in the second half.
   */
  lemma ExpiredIff(from: nat, now: nat)
    requires from <= now
    ensures Expired(Stamp(from % WRAP), now % WRAP) <==> (now - LastValid(from) - 1) % WRAP < WRAP / 2
  {
    var end := from + LEASE_MS;
    var x := (from % WRAP + LEASE_MS) % WRAP;
    WrapSum(from, LEASE_MS);
    assert x == end % WRAP;
    UnitOfWrapped(end);
    var pad := 0xffff - end % 0x1_0000;
    assert Stamp(from % WRAP) * 0x1_0000 + 0xffff == x + pad;
    WrapDifference(end, pad, now);
    HalfTurn(end + pad - now);
  }

  lemma HalfTurn(d: int)
    ensures d % WRAP >= WRAP / 2 <==> (-d - 1) % WRAP < WRAP / 2
  {
    assert (-d - 1) % WRAP == WRAP - 1 - d % WRAP;
  }

  /** Read within half a turn of the grant, the stamp means what it should. */
  lemma ExpiredSoon(from: nat, now: nat)
    requires from <= now < from + WRAP / 2
    ensures Expired(Stamp(from % WRAP), now % WRAP) <==> now > LastValid(from)
  {
    ExpiredIff(from, now);
  }

  lemma WrapSum(a: nat, b: nat)
    ensures (a % WRAP + b) % WRAP == (a + b) % WRAP
  {
  }

  lemma UnitOfWrapped(end: nat)
    ensures end % WRAP % 0x1_0000 == end % 0x1_0000
  {
  }

  lemma WrapDifference(end: nat, pad: nat, now: nat)
    ensures (end % WRAP + pad - now % WRAP) % WRAP == (end + pad - now) % WRAP
  {
    var d := end + pad - now;
    var k := now / WRAP - end / WRAP;
    assert end % WRAP + pad - now % WRAP == d + k * WRAP;
    assert (d + k * WRAP) % WRAP == d % WRAP;
  }

  // ----- the table operations, stated by first matches -----

  predicate Available(l: Lease, ticks: nat) {
    l.mac == NO_MAC || Expired(l.expiry, ticks)
  }

  /** The first slot from `i` on that holds `mac`, or MAX_IP. */
  function FirstHeld(t: Table, mac: Mac, i: nat): (k: nat)
    requires i <= MAX_IP
    ensures i <= k <= MAX_IP
    ensures k < MAX_IP ==> t[k].mac == mac
    ensures forall j :: i <= j < k ==> t[j].mac != mac
    decreases MAX_IP - i
  {
    if i == MAX_IP || t[i].mac == mac then i else FirstHeld(t, mac, i + 1)
  }

  /** The first slot from `i` on and before `end` that is free or has an expired stamp, or MAX_IP. */
  function FirstAvailable(t: Table, ticks: nat, i: nat, end: nat): (k: nat)
    requires i <= end <= MAX_IP
    ensures k == MAX_IP || (i <= k < end && Available(t[k], ticks))
    ensures forall j :: i <= j < end && j < k ==> !Available(t[j], ticks)
    decreases end - i
  {
    if i == end then MAX_IP
    else if Available(t[i], ticks) then i
    else FirstAvailable(t, ticks, i + 1, end)
  }

  /** DISCOVER offers the client's own slot, else the first available one, which an expired holder loses. */
  function Discover(t: Table, mac: Mac, ticks: nat): (r: (Reply, Table))
  {
    var own := FirstHeld(t, mac, 0);
    var spare := FirstAvailable(t, ticks, 0, own);
    (if own < MAX_IP then Offered(own) else if spare < MAX_IP then Offered(spare) else Ignored, Evict(t, spare, ticks))
  }

  function Evict(t: Table, spare: nat, ticks: nat): Table {
    if spare < MAX_IP && Expired(t[spare].expiry, ticks) then t[spare := t[spare].(mac := NO_MAC)] else t
  }

  lemma DiscoverIs(t: Table, mac: Mac, ticks: nat, own: nat, spare: nat)
    requires own <= MAX_IP && (own < MAX_IP ==> t[own].mac == mac)
    requires forall j :: 0 <= j < own ==> t[j].mac != mac
    requires forall j :: 0 <= j < own && j < spare ==> !Available(t[j], ticks)
    requires spare == MAX_IP || (spare < own && Available(t[spare], ticks))
    ensures FirstHeld(t, mac, 0) == own && FirstAvailable(t, ticks, 0, own) == spare
  {
  }

  /** REQUEST grants a slot to its holder, or to anyone when nobody holds it. */
  function Grant(t: Table, mac: Mac, slot: nat, ticks: nat): (r: (Reply, Table))
    requires ticks < WRAP
  {
    if slot < MAX_IP && (t[slot].mac == mac || t[slot].mac == NO_MAC)
    then (Acked(slot), t[slot := Lease(mac, Stamp(ticks))])
    else (Ignored, t)
  }

  /** A message as the server sees it; a REQUEST for a foreign address carries a slot out of range. */
  datatype Message = MDiscover(mac: Mac) | MRequest(mac: Mac, slot: nat) | MOther

  predicate From(m: Message, mac: Mac) {
    !m.MOther? && m.mac == mac
  }

  function Step(t: Table, m: Message, now: nat): (r: (Reply, Table)) {
    match m
    case MDiscover(mac) => Discover(t, mac, now % WRAP)
    case MRequest(mac, slot) => Grant(t, mac, slot, now % WRAP)
    case MOther => (Ignored, t)
  }

  // ----- lease exclusivity over runs -----

  datatype Event = Event(msg: Message, at: nat)

  /** The table after a run, and the replies it produced. */
  function Run(t: Table, events: seq<Event>): (r: (seq<Reply>, Table))
    ensures |r.0| == |events|
  {
    if events == [] then ([], t)
    else
      var (rs, t') := Run(t, events[..|events| - 1]);
      var e := events[|events| - 1];
      var (reply, t'') := Step(t', e.msg, e.at);
      (rs + [reply], t'')
  }

  ghost predicate Within(events: seq<Event>, from: nat, to: nat) {
    && (forall i :: 0 <= i < |events| ==> from <= events[i].at <= to)
    && (forall i, j :: 0 <= i < j < |events| ==> events[i].at <= events[j].at)
  }

  /** Slot `k` is held by `mac` under a stamp granted between `from` and `now`. */
  ghost predicate Holds(t: Table, k: nat, mac: Mac, from: nat, now: nat) {
    k < MAX_IP && t[k].mac == mac && exists g: nat :: from <= g <= now && t[k].expiry == Stamp(g % WRAP)
  }

  lemma FreshStamp(t: Table, k: nat, mac: Mac, from: nat, then_: nat, now: nat)
    requires Holds(t, k, mac, from, then_) && then_ <= now <= from + LEASE_MS
    ensures !Expired(t[k].expiry, now % WRAP)
  {
    var g: nat :| from <= g <= then_ && t[k].expiry == Stamp(g % WRAP);
    ExpiredSoon(g, now);
  }

  lemma StepKeepsHolder(t: Table, k: nat, mac: Mac, from: nat, then_: nat, now: nat, m: Message)
    requires mac != NO_MAC
    requires Holds(t, k, mac, from, then_) && then_ <= now <= from + LEASE_MS
    ensures Holds(Step(t, m, now).1, k, mac, from, now)
    ensures Step(t, m, now).0 in {Offered(k), Acked(k)} ==> From(m, mac)
  {
    FreshStamp(t, k, mac, from, then_, now);
    if m.MRequest? && m.slot == k && m.mac == mac {
      assert Step(t, m, now).1[k].expiry == Stamp(now % WRAP);
    }
  }

  /**
   Lease exclusivity: from the moment slot `k` is acknowledged to a real MAC address, no
   sequence of messages within the next 24 hours takes the slot away, offers it or
   acknowledges it to another client, whatever the 32-bit clock does meanwhile.
   */
  lemma {:induction false} LeaseExclusive(t: Table, k: nat, mac: Mac, from: nat, events: seq<Event>)
    requires mac != NO_MAC && Step(t, MRequest(mac, k), from).0 == Acked(k)
    requires Within(events, from, from + 86_400_000)
    ensures var (replies, t') := Run(Step(t, MRequest(mac, k), from).1, events);
            && t'[k].mac == mac
            && Holds(t', k, mac, from, if events == [] then from else events[|events| - 1].at)
            && forall i :: 0 <= i < |events| && replies[i] in {Offered(k), Acked(k)} ==> From(events[i].msg, mac)
  {
    if events == [] {
      assert Step(t, MRequest(mac, k), from).1[k].expiry == Stamp(from % WRAP);
    } else {
      var n := |events| - 1;
      LeaseExclusive(t, k, mac, from, events[..n]);
      var t' := Run(Step(t, MRequest(mac, k), from).1, events[..n]).1;
      StepKeepsHolder(t', k, mac, from, if n == 0 then from else events[n - 1].at, events[n].at, events[n].msg);
    }
  }

  /** DISCOVER is ignored exactly when every slot is held by somebody else under an unexpired stamp. */
  lemma DiscoverIgnoredIff(t: Table, mac: Mac, now: nat)
    ensures Step(t, MDiscover(mac), now).0 == Ignored <==>
            forall i :: 0 <= i < 8 ==> t[i].mac != mac && t[i].mac != NO_MAC && !Expired(t[i].expiry, now % WRAP)
  {
    var own := FirstHeld(t, mac, 0);
    if own == MAX_IP && FirstAvailable(t, now % WRAP, 0, MAX_IP) == MAX_IP {
      assert forall i :: 0 <= i < MAX_IP ==> !Available(t[i], now % WRAP);
    }
  }

  /** What DISCOVER offers can be had: a REQUEST for it that follows at once is acknowledged. */
  lemma OfferIsGrantable(t: Table, mac: Mac, now: nat, later: nat)
    requires Step(t, MDiscover(mac), now).0.Offered?
    ensures var (reply, t') := Step(t, MDiscover(mac), now);
            Step(t', MRequest(mac, reply.slot), later).0 == Acked(reply.slot)
  {
  }

  /** DISCOVER offers the client's own slot, the first one if it holds several, wherever a spare one may be. */
  lemma {:induction false} OwnSlotOffered(t: Table, mac: Mac, now: nat, k: nat)
    requires k < MAX_IP && t[k].mac == mac && forall j :: 0 <= j < k ==> t[j].mac != mac
    ensures Step(t, MDiscover(mac), now).0 == Offered(k)
  {
  }

  /** A client without a slot is offered the first one that is free or whose stamp has expired. */
  lemma {:induction false} SpareSlotOffered(t: Table, mac: Mac, now: nat, k: nat)
    requires forall j :: 0 <= j < MAX_IP ==> t[j].mac != mac
    requires k < MAX_IP && (t[k].mac == NO_MAC || Expired(t[k].expiry, now % WRAP))
    requires forall j :: 0 <= j < k ==> t[j].mac != NO_MAC && !Expired(t[j].expiry, now % WRAP)
    ensures Step(t, MDiscover(mac), now).0 == Offered(k)
  {
    DiscoverIs(t, mac, now % WRAP, MAX_IP, k);
  }

  /** A REQUEST is granted exactly when its slot exists and is the client's own or free, expired or not. */
  lemma {:induction false} RequestIff(t: Table, mac: Mac, slot: nat, now: nat)
    ensures Step(t, MRequest(mac, slot), now).0 ==
            if slot < MAX_IP && t[slot].mac in {mac, NO_MAC} then Acked(slot) else Ignored
  {
  }

  /** The client asks for no slot below `k` itself. */
  ghost predicate AsksForNoneBelow(events: seq<Event>, mac: Mac, k: nat) {
    forall i :: 0 <= i < |events| && events[i].msg.MRequest? && events[i].msg.mac == mac ==> events[i].msg.slot >= k
  }

  lemma {:induction false} StepGivesNoneBelow(t: Table, mac: Mac, k: nat, m: Message, now: nat)
    requires mac != NO_MAC && k < MAX_IP && forall j :: 0 <= j < k ==> t[j].mac != mac
    requires m.MRequest? && m.mac == mac ==> m.slot >= k
    ensures forall j :: 0 <= j < k ==> Step(t, m, now).1[j].mac != mac
  {
  }

  lemma {:induction false} RunGivesNoneBelow(t: Table, mac: Mac, k: nat, events: seq<Event>)
    requires mac != NO_MAC && k < MAX_IP && forall j :: 0 <= j < k ==> t[j].mac != mac
    requires AsksForNoneBelow(events, mac, k)
    ensures forall j :: 0 <= j < k ==> Run(t, events).1[j].mac != mac
  {
    hide Step;
    if events != [] {
      var n := |events| - 1;
      RunGivesNoneBelow(t, mac, k, events[..n]);
      StepGivesNoneBelow(Run(t, events[..n]).1, mac, k, events[n].msg, events[n].at);
    }
  }

  /** The replies of a run's beginning are those of the whole run. */
  lemma {:induction false} RunStarts(t: Table, events: seq<Event>, i: nat)
    requires i < |events|
    ensures Run(t, events).0[i] == Step(Run(t, events[..i]).1, events[i].msg, events[i].at).0
  {
    hide Step;
    var n := |events| - 1;
    if i < n {
      RunStarts(t, events[..n], i);
      assert events[..n][..i] == events[..i];
    }
  }

  /**
   A client keeps its address: from the acknowledgement of slot `k` to a client that holds no
   lower slot, every DISCOVER of that client within 24 hours is answered by an offer of slot `k`,
   whatever anybody else sends in between, unless the client itself asks for a lower one.
   */
  lemma {:induction false} AddressKept(t: Table, k: nat, mac: Mac, from: nat, events: seq<Event>, i: nat)
    requires mac != NO_MAC && Step(t, MRequest(mac, k), from).0 == Acked(k)
    requires Within(events, from, from + 86_400_000) && forall j :: 0 <= j < k ==> t[j].mac != mac
    requires AsksForNoneBelow(events, mac, k)
    requires i < |events| && events[i].msg == MDiscover(mac)
    ensures Run(Step(t, MRequest(mac, k), from).1, events).0[i] == Offered(k)
  {
    hide Run;
    var t0 := Step(t, MRequest(mac, k), from).1;
    LeaseExclusive(t, k, mac, from, events[..i]);
    StepGivesNoneBelow(t, mac, k, MRequest(mac, k), from);
    RunGivesNoneBelow(t0, mac, k, events[..i]);
    RunStarts(t0, events, i);
    OwnSlotOffered(Run(t0, events[..i]).1, mac, events[i].at, k);
  }

  /** A client that asks for a free lower slot is offered that one afterwards. */
  lemma {:induction false} LowerSlotTaken(t: Table, k: nat, j: nat, mac: Mac, at: nat, later: nat)
    requires mac != NO_MAC && j < k < MAX_IP && t[k].mac == mac && t[j].mac == NO_MAC
    requires forall i :: 0 <= i < j ==> t[i].mac != mac
    ensures var (reply, t') := Step(t, MRequest(mac, j), at);
            reply == Acked(j) && Step(t', MDiscover(mac), later).0 == Offered(j)
  {
    OwnSlotOffered(Step(t, MRequest(mac, j), at).1, mac, later, j);
  }

  // ----- the message handler -----

  /** Bytes of memory behind the message that the handler can read when an option is cut off by the field's end. */
  const BEHIND: nat := 5

  /** What precedes the options: the fixed fields and the magic cookie. */
  const FIELDS_SIZE: nat := 240

  /** The shortest message that is looked at. */
  const MIN_SIZE: nat := FIELDS_SIZE + 3

  /** The fields, the six options of a reply and their end mark. */
  const REPLY_SIZE: nat := FIELDS_SIZE + 33 + 1

  /** The operation code of section 2 of RFC 2131 for a server's messages. */
  const BOOT_REPLY: Byte := 2

  /** A message of `size` bytes; `opts` is its options field and the bytes behind it. */
  function Heard(size: nat, chaddr: Mac, opts: seq<Byte>, ip: Ip): (m: Message)
    requires |opts| == OPT_SPACE + BEHIND
  {
    if size < MIN_SIZE then MOther else Parse(chaddr, opts, ip)
  }

  /** The message carried by the options `opts` from a client with hardware address `chaddr`. */
  function Parse(chaddr: Mac, opts: seq<Byte>, ip: Ip): (m: Message)
    requires |opts| == OPT_SPACE + BEHIND
  {
    var t := Find(opts, 0, OPT_MSG_TYPE);
    if t < 0 then MOther
    else if opts[t + 2] == DISCOVER then MDiscover(chaddr)
    else if opts[t + 2] == REQUEST then ParseRequest(chaddr, opts, ip)
    else MOther
  }

  function ParseRequest(chaddr: Mac, opts: seq<Byte>, ip: Ip): (m: Message)
    requires |opts| == OPT_SPACE + BEHIND
  {
    var o := Find(opts, 0, OPT_REQUESTED_IP);
    if o < 0 || opts[o + 2..o + 5] != ip[..3] then MOther
    else MRequest(chaddr, (opts[o + 5] - BASE_IP) % 256)
  }

  /** The address of a slot, which a reply carries as the client's own. */
  function Address(ip: Ip, slot: nat): Ip
    requires slot < MAX_IP
  {
    ip[3 := BASE_IP + slot]
  }

  /** A request for the address that a reply carried is a request for the same slot. */
  lemma AddressNamesSlot(chaddr: Mac, s: seq<Byte>, opts: seq<Opt>, ip: Ip, slot: nat)
    requires |s| == OPT_SPACE + BEHIND && slot < MAX_IP
    requires forall i :: 0 <= i < |opts| ==> Writable(opts[i])
    requires |EncodeAll(opts)| < OPT_SPACE && EncodeAll(opts) + [OPT_END] <= s
    requires var k := FirstWithTag(opts, OPT_MSG_TYPE); k < |opts| && opts[k].data == [REQUEST]
    requires var k := FirstWithTag(opts, OPT_REQUESTED_IP); k < |opts| && opts[k].data == Address(ip, slot)
    ensures Parse(chaddr, s, ip) == MRequest(chaddr, slot)
  {
    hide Find, Encode, EncodeAll;
    assert s[0..] == s;
    FindWritten(s, 0, opts, OPT_MSG_TYPE);
    FindWritten(s, 0, opts, OPT_REQUESTED_IP);
    var j, k := FirstWithTag(opts, OPT_MSG_TYPE), FirstWithTag(opts, OPT_REQUESTED_IP);
    assert opts[j] == Opt(OPT_MSG_TYPE, [REQUEST]) && opts[k] == Opt(OPT_REQUESTED_IP, Address(ip, slot));
    var t, o := Find(s, 0, OPT_MSG_TYPE), Find(s, 0, OPT_REQUESTED_IP);
    DataAt(s, t, [REQUEST], OPT_MSG_TYPE);
    DataAt(s, o, Address(ip, slot), OPT_REQUESTED_IP);
    assert s[t + 2] == s[t + 2..t + 3][0] == REQUEST;
    AddressParts(s[o + 2..o + 6], ip, slot);
    assert s[o + 2..o + 5] == s[o + 2..o + 6][..3] && s[o + 5] == s[o + 2..o + 6][3];
  }

  /** A message too short for its fields, the magic cookie and an option is not looked at, and a longer one is. */
  lemma ShortIgnored(size: nat, chaddr: Mac, opts: seq<Byte>, ip: Ip)
    requires |opts| == OPT_SPACE + BEHIND
    ensures Heard(size, chaddr, opts, ip) == if size < 243 then MOther else Parse(chaddr, opts, ip)
  {
  }

  /** The slots' addresses are .16 to .23 of the server's own network. */
  lemma AddressOf(ip: Ip, slot: nat)
    requires slot < MAX_IP
    ensures var a := Address(ip, slot); a[..3] == ip[..3] && a[3] as nat == 16 + slot
  {
  }

  /**
   A message of type 3 with a requested address is a request for the slot that the address names in
   the server's network, and in any other network for none; one of type 1 asks for an offer.
   */
  lemma MessageRead(chaddr: Mac, s: seq<Byte>, opts: seq<Opt>, ip: Ip, a: Ip)
    requires |s| == OPT_SPACE + BEHIND
    requires forall i :: 0 <= i < |opts| ==> Writable(opts[i])
    requires |EncodeAll(opts)| < OPT_SPACE && EncodeAll(opts) + [OPT_END] <= s
    requires FirstWithTag(opts, 53) < |opts|
    requires FirstWithTag(opts, 50) < |opts| && opts[FirstWithTag(opts, 50)].data == a
    ensures opts[FirstWithTag(opts, 53)].data == [1] ==> Parse(chaddr, s, ip) == MDiscover(chaddr)
    ensures opts[FirstWithTag(opts, 53)].data == [3] ==>
              Parse(chaddr, s, ip) ==
              if a[..3] == ip[..3] then MRequest(chaddr, (a[3] as int - 16) % 256) else MOther
  {
    hide Find, Encode, EncodeAll;
    assert s[0..] == s;
    FindWritten(s, 0, opts, OPT_MSG_TYPE);
    FindWritten(s, 0, opts, OPT_REQUESTED_IP);
    var j, k := FirstWithTag(opts, OPT_MSG_TYPE), FirstWithTag(opts, OPT_REQUESTED_IP);
    var t, o := Find(s, 0, OPT_MSG_TYPE), Find(s, 0, OPT_REQUESTED_IP);
    assert opts[j] == Opt(OPT_MSG_TYPE, opts[j].data) && opts[k] == Opt(OPT_REQUESTED_IP, a);
    if |opts[j].data| == 1 {
      DataAt(s, t, opts[j].data, OPT_MSG_TYPE);
      assert s[t + 2] == s[t + 2..t + 3][0];
    }
    DataAt(s, o, a, OPT_REQUESTED_IP);
    assert s[o + 2..o + 5] == s[o + 2..o + 6][..3] && s[o + 5] == s[o + 2..o + 6][3];
  }

  lemma AddressParts(a: seq<Byte>, ip: Ip, slot: nat)
    requires slot < MAX_IP && a == Address(ip, slot)
    ensures a[..3] == ip[..3] && (a[3] - BASE_IP) % 256 == slot
  {
  }

  lemma DataAt(s: seq<Byte>, r: nat, data: seq<Byte>, tag: Byte)
    requires r <= |s| && Writable(Opt(tag, data)) && Encode(Opt(tag, data)) <= s[r..]
    ensures r + 2 + |data| <= |s| && s[r + 2..r + 2 + |data|] == data
  {
    assert s[r..][2..2 + |data|] == Encode(Opt(tag, data))[2..] == data;
  }

  /** The options of a reply, in the order in which they are written. */
  function ReplyOptions(kind: Byte, ip: Ip, nm: Ip): (opts: seq<Opt>)
    ensures forall i :: 0 <= i < |opts| ==> Writable(opts[i])
  {
    [Opt(OPT_MSG_TYPE, [kind]), Opt(OPT_SERVER_ID, ip), Opt(OPT_SUBNET_MASK, nm), Opt(OPT_ROUTER, ip), Opt(OPT_DNS, ip),
     Opt(OPT_LEASE_TIME, BigEndian(LEASE_S))]
  }

  lemma SizeStep(opts: seq<Opt>, k: nat)
    requires k < |opts| && forall i :: 0 <= i < |opts| ==> Writable(opts[i])
    ensures |EncodeAll(opts[k..])| == 2 + |opts[k].data| + |EncodeAll(opts[k + 1..])|
  {
    assert opts[k..][1..] == opts[k + 1..];
  }

  lemma ReplySize(kind: Byte, ip: Ip, nm: Ip)
    ensures |EncodeAll(ReplyOptions(kind, ip, nm))| == 33
  {
    hide EncodeAll;
    var all := ReplyOptions(kind, ip, nm);
    NoOptions();
    SizeStep(all, 0);
    SizeStep(all, 1);
    SizeStep(all, 2);
    SizeStep(all, 3);
    SizeStep(all, 4);
    SizeStep(all, 5);
    assert all[0..] == all && all[6..] == [];
  }

  /** The memory behind the field does not change what the search finds. */
  lemma {:induction false} FindInField(field: seq<Byte>, behind: seq<Byte>, i: nat, tag: Byte)
    requires |field| == OPT_SPACE
    ensures Find(field + behind, i, tag) == Find(field, i, tag)
    decreases OPT_SPACE - i
  {
    if i + 1 < OPT_SPACE {
      FindInField(field, behind, i + 2 + field[i + 1], tag);
    }
  }

  lemma OtherIgnored(t: Table, now: nat)
    ensures Step(t, MOther, now) == (Ignored, t)
  {
  }

  class Server {
    const ip: Ip
    const nm: Ip
    const lease: array<Lease>

    ghost predicate Valid()
      reads this
    {
      lease.Length == MAX_IP
    }

    ghost function Leases(): Table
      requires Valid()
      reads this, lease
    {
      lease[..]
    }

    constructor (ip: Ip, nm: Ip)
      ensures Valid() && fresh(lease) && this.ip == ip && this.nm == nm
      ensures forall i :: 0 <= i < MAX_IP ==> Leases()[i] == Lease(NO_MAC, 0)
    {
      this.ip, this.nm := ip, nm;
      lease := new Lease[8](_ => Lease(NO_MAC, 0));
    }

    /** The slot loop of the DHCPDISCOVER case. */
    method DiscoverLoop(chaddr: Mac, ticks: nat) returns (yi: nat)
      requires Valid() && ticks < WRAP
      modifies lease
      ensures yi <= MAX_IP
      ensures Discover(old(Leases()), chaddr, ticks) == (if yi < MAX_IP then Offered(yi) else Ignored, Leases())
    {
      yi := MAX_IP;
      ghost var t: Table := lease[..];
      ghost var spare := MAX_IP;
      var i := 0;
      while i < MAX_IP
        invariant i <= MAX_IP && yi == spare
        invariant forall j :: 0 <= j < i ==> t[j].mac != chaddr
        invariant forall j :: 0 <= j < i && j < spare ==> !Available(t[j], ticks)
        invariant spare == MAX_IP || (spare < i && Available(t[spare], ticks))
        invariant lease[..] == Evict(t, spare, ticks)
      {
        if lease[i].mac == chaddr {
          yi := i;
          break;
        }
        if yi == MAX_IP {
          if lease[i].mac == NO_MAC {
            yi := i;
          }
          var expiry := lease[i].expiry * 0x1_0000 + 0xffff;
          if (expiry - ticks) % WRAP >= WRAP / 2 {
            lease[i] := lease[i].(mac := NO_MAC);
            yi := i;
          }
          spare := yi;
        }
        i := i + 1;
      }
      DiscoverIs(t, chaddr, ticks, i, spare);
    }

    /** The DHCPREQUEST case once the slot is known. */
    method RequestSlot(chaddr: Mac, yi: nat, ticks: nat) returns (ok: bool)
      requires Valid() && ticks < WRAP
      modifies lease
      ensures Grant(old(Leases()), chaddr, yi, ticks) == (if ok then Acked(yi) else Ignored, Leases())
    {
      if yi >= MAX_IP {
        return false;
      }
      if lease[yi].mac == chaddr {
      } else if lease[yi].mac == NO_MAC {
        lease[yi] := lease[yi].(mac := chaddr);
      } else {
        return false;
      }
      lease[yi] := lease[yi].(expiry := (ticks + LEASE_MS) % WRAP / 0x1_0000);
      assert lease[..] == old(lease[..])[yi := Lease(chaddr, Stamp(ticks))];
      ok := true;
    }

    /**
     dhcp_server_process for a message of `size` bytes with the memory behind it: the lease
     table's step, the address of the reply, and its options written over those of the message.
     Both kinds of reply carry the code of an offer as their operation, which is that of a boot
     reply; `length` is that of the datagram that is sent.
     */
    method Process(size: nat, chaddr: Mac, opts: array<Byte>, behind: seq<Byte>, now: nat)
        returns (reply: Reply, yiaddr: Ip, op: Byte, length: nat)
      requires Valid() && opts.Length == OPT_SPACE && |behind| == BEHIND
      modifies lease, opts
      ensures (reply, Leases()) == Step(old(Leases()), Heard(size, chaddr, old(opts[..]) + behind, ip), now)
      ensures reply == Ignored ==> opts[..] == old(opts[..])
      ensures reply != Ignored ==>
                && EncodeAll(ReplyOptions(if reply.Offered? then 2 else 5, ip, nm)) + [OPT_END] <= opts[..]
                && reply.slot < MAX_IP && yiaddr == Address(ip, reply.slot) && op == BOOT_REPLY
      ensures length == if reply == Ignored then 0 else 274
      ensures size < 243 ==> reply == Ignored && Leases() == old(Leases())
    {
      hide Find, EncodeAll, ReplyOptions, ParseRequest, Step;
      OtherIgnored(Leases(), now);
      op, yiaddr, length := OFFER, ip, 0;
      if size < MIN_SIZE {
        return Ignored, yiaddr, op, length;
      }
      assert opts[0..] == opts[..];
      FindInField(opts[..], behind, 0, OPT_MSG_TYPE);
      var msgtype := OptFind(opts, 0, OPT_MSG_TYPE);
      if msgtype < 0 {
        return Ignored, yiaddr, op, length;
      }
      var kind := ByteAt(opts, behind, msgtype + 2);
      reply := Answer(kind, chaddr, opts, behind, now);
      if reply != Ignored {
        yiaddr := ip[3 := BASE_IP + reply.slot];
        var opt := WriteReply(opts, if reply.Offered? then OFFER else ACK);
        length := FIELDS_SIZE + opt;
      }
    }

    /** The switch on the message's kind. */
    method Answer(kind: Byte, chaddr: Mac, opts: array<Byte>, behind: seq<Byte>, now: nat) returns (reply: Reply)
      requires Valid() && opts.Length == OPT_SPACE && |behind| == BEHIND
      modifies lease
      ensures (reply, Leases()) ==
              Step(old(Leases()),
                   if kind == DISCOVER then MDiscover(chaddr)
                   else if kind == REQUEST then ParseRequest(chaddr, opts[..] + behind, ip) else MOther, now)
      ensures (reply.Offered? ==> kind == DISCOVER) && (reply.Acked? ==> kind == REQUEST)
      ensures reply != Ignored ==> reply.slot < MAX_IP
    {
      hide Find, ParseRequest;
      if kind == DISCOVER {
        var yi := DiscoverLoop(chaddr, now % WRAP);
        reply := if yi == MAX_IP then Ignored else Offered(yi);
      } else if kind == REQUEST {
        reply := Request(chaddr, opts, behind, now);
      } else {
        reply := Ignored;
      }
    }

    /** A byte of the options field or of the memory behind it. */
    method ByteAt(opts: array<Byte>, behind: seq<Byte>, i: nat) returns (b: Byte)
      requires opts.Length == OPT_SPACE && |behind| == BEHIND && i < OPT_SPACE + BEHIND
      ensures b == (opts[..] + behind)[i]
    {
      b := if i < OPT_SPACE then opts[i] else behind[i - OPT_SPACE];
    }

    method Request(chaddr: Mac, opts: array<Byte>, behind: seq<Byte>, now: nat) returns (reply: Reply)
      requires Valid() && opts.Length == OPT_SPACE && |behind| == BEHIND
      modifies lease
      ensures (reply, Leases()) == Step(old(Leases()), ParseRequest(chaddr, opts[..] + behind, ip), now)
      ensures !reply.Offered? && (reply.Acked? ==> reply.slot < MAX_IP)
    {
      hide Find;
      ghost var all := opts[..] + behind;
      assert opts[0..] == opts[..];
      FindInField(opts[..], behind, 0, OPT_REQUESTED_IP);
      var o := OptFind(opts, 0, OPT_REQUESTED_IP);
      if o < 0 {
        return Ignored;
      }
      var a := ByteAt(opts, behind, o + 2);
      var b := ByteAt(opts, behind, o + 3);
      var c := ByteAt(opts, behind, o + 4);
      var d := ByteAt(opts, behind, o + 5);
      assert all[o + 2..o + 5] == [a, b, c];
      if [a, b, c] != ip[..3] {
        return Ignored;
      }
      var yi := (d - BASE_IP) % 256;
      var ok := RequestSlot(chaddr, yi, now % WRAP);
      reply := if ok then Acked(yi) else Ignored;
    }

    method WriteReply(buf: array<Byte>, kind: Byte) returns (opt: nat)
      requires buf.Length == OPT_SPACE
      modifies buf
      ensures opt == REPLY_SIZE - FIELDS_SIZE && buf[..opt] == EncodeAll(ReplyOptions(kind, ip, nm)) + [OPT_END]
    {
      ghost var all := ReplyOptions(kind, ip, nm);
      ReplySize(kind, ip, nm);
      assert EncodeAll(all[..0]) == [];
      opt := OptWriteN(buf, 0, OPT_MSG_TYPE, [kind]);
      Appended(all, 0, buf[..opt]);
      opt := OptWriteN(buf, opt, OPT_SERVER_ID, ip);
      Appended(all, 1, buf[..opt]);
      opt := OptWriteN(buf, opt, OPT_SUBNET_MASK, nm);
      Appended(all, 2, buf[..opt]);
      opt := WriteTail(buf, opt, kind);
      buf[opt] := OPT_END;
      opt := opt + 1;
      assert buf[..opt] == EncodeAll(all) + [OPT_END];
    }

    method WriteTail(buf: array<Byte>, start: nat, kind: Byte) returns (opt: nat)
      requires buf.Length == OPT_SPACE && start <= 100
      requires buf[..start] == EncodeAll(ReplyOptions(kind, ip, nm)[..3])
      modifies buf
      ensures opt <= 150 && buf[..opt] == EncodeAll(ReplyOptions(kind, ip, nm))
    {
      ghost var all := ReplyOptions(kind, ip, nm);
      opt := OptWriteN(buf, start, OPT_ROUTER, ip);
      Appended(all, 3, buf[..opt]);
      opt := OptWriteN(buf, opt, OPT_DNS, ip);
      Appended(all, 4, buf[..opt]);
      opt := OptWriteU32(buf, opt, OPT_LEASE_TIME, LEASE_S);
      Appended(all, 5, buf[..opt]);
      assert all[..6] == all;
    }
  }

  lemma Appended(all: seq<Opt>, k: nat, written: seq<Byte>)
    requires k < |all| && forall i :: 0 <= i < |all| ==> Writable(all[i])
    requires written == EncodeAll(all[..k]) + Encode(all[k])
    ensures written == EncodeAll(all[..k + 1])
  {
    assert all[..k + 1] == all[..k] + [all[k]];
    EncodeAppend(all[..k], all[k]);
  }

  /** Read back with the option search, a reply names its kind, the server and the lease time. */
  lemma ReplyReadsBack(s: seq<Byte>, kind: Byte, ip: Ip, nm: Ip, tag: Byte)
    requires |s| >= OPT_SPACE
    requires EncodeAll(ReplyOptions(kind, ip, nm)) + [OPT_END] <= s
    ensures var r := Find(s, 0, tag);
            if tag == 53 then r >= 0 && [tag, 1, kind] <= s[r..]
            else if tag == 54 || tag == 3 || tag == 6 then r >= 0 && [tag, 4] + ip <= s[r..]
            else if tag == 1 then r >= 0 && [tag, 4] + nm <= s[r..]
            else if tag == 51 then r >= 0 && [tag, 4] + BigEndian(86400) <= s[r..]
            else r == -1
  {
    var all := ReplyOptions(kind, ip, nm);
    assert s[0..] == s;
    ReplySize(kind, ip, nm);
    FindWritten(s, 0, all, tag);
    assert |ip| == 4 && |nm| == 4;
    assert all[1].tag == OPT_SERVER_ID && all[2].tag == OPT_SUBNET_MASK && all[3].tag == OPT_ROUTER;
    assert all[4].tag == OPT_DNS && all[5].tag == OPT_LEASE_TIME;
  }
}
