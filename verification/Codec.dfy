/**
Physical keys of the version store: timestamps, addresses, version keys in the LOGS
and TAGS layouts, and replication obligations.

Node identifiers are their UTF-8 bytes; UTF-8 keeps the order of code points.
*/
module Codec {
  import opened ByteOrder

  const PID_SIZE: nat := 4
  const MAX_NODE_ID_LEN: nat := 63
  const MAX_NAMESPACE_LEN: nat := 63
  const MAX_KEY_LEN: nat := 128
  const OBLIGATION_KIND: Byte := 1

  type NodeId = Bytes

  datatype Option<+T> = None | Some(value: T)

  datatype Timestamp = Timestamp(wall: int, counter: int, node: NodeId)
  datatype Address = Address(key: Bytes, namespace: Bytes)
  /** An address inside its partition. */
  datatype Place = Place(pid: int, address: Address)
  datatype RawKey = RawKey(pid: int, address: Address, ts: Timestamp)
  datatype RawObligation = RawObligation(target: NodeId, key: RawKey)

  datatype Keyspace = LOGS | TAGS

  function PlaceOf(k: RawKey): Place {
    Place(k.pid, k.address)
  }

  predicate TimestampFits(t: Timestamp) {
    0 <= t.wall < 0x1_0000_0000_0000_0000 && 0 <= t.counter < 0x1_0000 && |t.node| <= MAX_NODE_ID_LEN
  }

  predicate AddressFits(a: Address) {
    |a.namespace| <= MAX_NAMESPACE_LEN && |a.key| <= MAX_KEY_LEN
  }

  predicate PlaceFits(p: Place) {
    0 <= p.pid < 0x1_0000_0000 && AddressFits(p.address)
  }

  /** What `Key.to_bytes` accepts; anything else raises `OverflowError` or `ValueError`. */
  predicate Encodable(k: RawKey) {
    PlaceFits(PlaceOf(k)) && TimestampFits(k.ts)
  }

  predicate ObligationEncodable(o: RawObligation) {
    1 <= |o.target| <= MAX_NODE_ID_LEN && Encodable(o.key)
  }

  /** A version key that has a physical form. */
  type Key = k: RawKey | Encodable(k) witness RawKey(0, Address([], []), Timestamp(0, 0, []))

  // ---------------------------------------------------------------- widths

  lemma Widths()
    ensures Pow256(1) == 0x100 && Pow256(2) == 0x1_0000
    ensures Pow256(4) == 0x1_0000_0000 && Pow256(8) == 0x1_0000_0000_0000_0000
  {
    assert Pow256(1) == 256 * Pow256(0);
    assert Pow256(2) == 256 * Pow256(1);
    assert Pow256(3) == 256 * Pow256(2);
    assert Pow256(4) == 256 * Pow256(3);
    assert Pow256(5) == 256 * Pow256(4);
    assert Pow256(6) == 256 * Pow256(5);
    assert Pow256(7) == 256 * Pow256(6);
    assert Pow256(8) == 256 * Pow256(7);
  }

  function Byte1(n: nat): (b: Bytes)
    requires n < 0x100
    ensures |b| == 1
  {
    Widths();
    BigEndian(n, 1)
  }

  function Byte2(n: nat): (b: Bytes)
    requires n < 0x1_0000
    ensures |b| == 2
  {
    Widths();
    BigEndian(n, 2)
  }

  function Byte4(n: nat): (b: Bytes)
    requires n < 0x1_0000_0000
    ensures |b| == 4
  {
    Widths();
    BigEndian(n, 4)
  }

  function Byte8(n: nat): (b: Bytes)
    requires n < 0x1_0000_0000_0000_0000
    ensures |b| == 8
  {
    Widths();
    BigEndian(n, 8)
  }

  // -------------------------------------------------------------- encoders

  function TimestampBytes(t: Timestamp): Bytes
    requires TimestampFits(t)
  {
    Byte8(t.wall) + (Byte2(t.counter) + (Byte2(|t.node|) + t.node))
  }

  function AddressBytes(a: Address): Bytes
    requires AddressFits(a)
  {
    Byte1(|a.namespace|) + (a.namespace + (Byte1(|a.key|) + a.key))
  }

  function PlaceBytes(p: Place): Bytes
    requires PlaceFits(p)
  {
    Byte4(p.pid) + AddressBytes(p.address)
  }

  function TagsBytes(k: Key): Bytes {
    Byte4(k.pid) + (TimestampBytes(k.ts) + AddressBytes(k.address))
  }

  function LogsBytes(k: Key): Bytes {
    PlaceBytes(PlaceOf(k)) + TimestampBytes(k.ts)
  }

  function EncodeKey(k: RawKey, ks: Keyspace): Option<Bytes> {
    if !Encodable(k) then None
    else if ks == TAGS then Some(TagsBytes(k))
    else Some(LogsBytes(k))
  }

  function ObligationBytes(o: RawObligation): Bytes
    requires ObligationEncodable(o)
  {
    [OBLIGATION_KIND] + ((Byte2(|o.target|) + o.target) + TagsBytes(o.key))
  }

  function EncodeObligation(o: RawObligation): Option<Bytes> {
    if ObligationEncodable(o) then Some(ObligationBytes(o)) else None
  }

  // -------------------------------------------------------------- decoders

  /** Outcome of a read at a cursor: `Fail` where the walker raises. */
  datatype Parsed<+T> = Fail | Got(value: T, pos: nat) {
    predicate IsFailure() {
      Fail?
    }
    function PropagateFailure<U>(): Parsed<U>
      requires Fail?
    {
      Fail
    }
    function Extract(): (T, nat)
      requires Got?
    {
      (value, pos)
    }
  }

  function Take(b: Bytes, pos: nat, n: nat): (r: Parsed<Bytes>)
    ensures r.Got? ==> r.pos == pos + n <= |b|
  {
    if |b| < pos + n then Fail else Got(b[pos..pos + n], pos + n)
  }

  function TakeInt(b: Bytes, pos: nat, n: nat): Parsed<nat> {
    var (raw, p) :- Take(b, pos, n);
    Got(FromBigEndian(raw), p)
  }

  function TakeField(b: Bytes, pos: nat, lenSize: nat): Parsed<Bytes> {
    var (length, p) :- TakeInt(b, pos, lenSize);
    Take(b, p, length)
  }

  function ParseTimestamp(b: Bytes, pos: nat): Parsed<Timestamp> {
    var (wall, p1) :- TakeInt(b, pos, 8);
    var (counter, p2) :- TakeInt(b, p1, 2);
    var (node, p3) :- TakeField(b, p2, 2);
    if |node| > MAX_NODE_ID_LEN then Fail else Got(Timestamp(wall, counter, node), p3)
  }

  function ParseAddress(b: Bytes, pos: nat): Parsed<Address> {
    var (namespace, p1) :- TakeField(b, pos, 1);
    var (key, p2) :- TakeField(b, p1, 1);
    Got(Address(key, namespace), p2)
  }

  function ParsePlace(b: Bytes, pos: nat): Parsed<Place> {
    var (pid, p1) :- TakeInt(b, pos, PID_SIZE);
    var (address, p2) :- ParseAddress(b, p1);
    Got(Place(pid, address), p2)
  }

  function ParseKey(b: Bytes, pos: nat, ks: Keyspace): Parsed<RawKey> {
    if ks == TAGS then
      var (pid, p1) :- TakeInt(b, pos, PID_SIZE);
      var (ts, p2) :- ParseTimestamp(b, p1);
      var (address, p3) :- ParseAddress(b, p2);
      Got(RawKey(pid, address, ts), p3)
    else
      var (place, p1) :- ParsePlace(b, pos);
      var (ts, p2) :- ParseTimestamp(b, p1);
      Got(RawKey(place.pid, place.address, ts), p2)
  }

  function DecodeObligation(b: Bytes): Option<RawObligation> {
    if |b| == 0 || b[0] != OBLIGATION_KIND then None
    else
      match TakeField(b, 1, 2)
      case Fail => None
      case Got(target, p1) =>
        match ParseKey(b, p1, TAGS)
        case Fail => None
        case Got(key, p2) =>
          if p2 != |b| || |target| == 0 || |target| > MAX_NODE_ID_LEN then None
          else Some(RawObligation(target, key))
  }

  // ---------------------------------------------------------------- walker

  /** Stateful read cursor; every read is `Take` at the cursor it moves. */
  class BytesWalker {
    const data: Bytes
    var pos: nat

    constructor (data: Bytes)
      ensures this.data == data && pos == 0
    {
      this.data := data;
      pos := 0;
    }

    method Read(n: nat) returns (r: Option<Bytes>)
      modifies this
      ensures match Take(data, old(pos), n)
              case Fail => r == None && pos == old(pos)
              case Got(v, p) => r == Some(v) && pos == p
    {
      if |data| < pos + n {
        return None;
      }
      r := Some(data[pos..pos + n]);
      pos := pos + n;
    }

    method ReadInt(n: nat) returns (r: Option<nat>)
      modifies this
      ensures match TakeInt(data, old(pos), n)
              case Fail => r == None
              case Got(v, p) => r == Some(v) && pos == p
    {
      var raw := Read(n);
      match raw
      case None => r := None;
      case Some(v) => r := Some(FromBigEndian(v));
    }

    method ReadField(lenSize: nat) returns (r: Option<Bytes>)
      modifies this
      ensures match TakeField(data, old(pos), lenSize)
              case Fail => r == None
              case Got(v, p) => r == Some(v) && pos == p
    {
      var length := ReadInt(lenSize);
      match length
      case None => r := None;
      case Some(n) => r := Read(n);
    }

    method WalkTimestamp() returns (r: Option<Timestamp>)
      modifies this
      ensures match ParseTimestamp(data, old(pos))
              case Fail => r == None
              case Got(v, p) => r == Some(v) && pos == p
    {
      var wall := ReadInt(8);
      if wall == None { return None; }
      var counter := ReadInt(2);
      if counter == None { return None; }
      var node := ReadField(2);
      if node == None || |node.value| > MAX_NODE_ID_LEN { return None; }
      r := Some(Timestamp(wall.value, counter.value, node.value));
    }

    method WalkAddress() returns (r: Option<Address>)
      modifies this
      ensures match ParseAddress(data, old(pos))
              case Fail => r == None
              case Got(v, p) => r == Some(v) && pos == p
    {
      var namespace := ReadField(1);
      if namespace == None { return None; }
      var key := ReadField(1);
      if key == None { return None; }
      r := Some(Address(key.value, namespace.value));
    }

    method WalkKey(ks: Keyspace) returns (r: Option<RawKey>)
      modifies this
      ensures match ParseKey(data, old(pos), ks)
              case Fail => r == None
              case Got(v, p) => r == Some(v) && pos == p
    {
      var pid := ReadInt(PID_SIZE);
      if pid == None { return None; }
      if ks == TAGS {
        var ts := WalkTimestamp();
        if ts == None { return None; }
        var address := WalkAddress();
        if address == None { return None; }
        r := Some(RawKey(pid.value, address.value, ts.value));
      } else {
        var address := WalkAddress();
        if address == None { return None; }
        var ts := WalkTimestamp();
        if ts == None { return None; }
        r := Some(RawKey(pid.value, address.value, ts.value));
      }
    }
  }

  // ------------------------------------------------- decoding what was encoded

  /** `enc` is what follows position `pos` of `b`. */
  predicate At(b: Bytes, pos: nat, enc: Bytes) {
    pos + |enc| <= |b| && b[pos..pos + |enc|] == enc
  }

  lemma AtSplit(b: Bytes, pos: nat, x: Bytes, y: Bytes)
    requires At(b, pos, x + y)
    ensures At(b, pos, x) && At(b, pos + |x|, y)
  {
    var z := x + y;
    assert b[pos..pos + |x|] == z[..|x|];
    assert b[pos + |x|..pos + |z|] == z[|x|..];
  }

  lemma IntAt(b: Bytes, pos: nat, n: nat, width: nat)
    requires n < Pow256(width) && At(b, pos, BigEndian(n, width))
    ensures TakeInt(b, pos, width) == Got(n, pos + width)
  {
    BigEndianRoundTrip(n, width);
  }

  lemma Field2At(b: Bytes, pos: nat, x: Bytes)
    requires |x| < 0x1_0000 && At(b, pos, Byte2(|x|) + x)
    ensures TakeField(b, pos, 2) == Got(x, pos + 2 + |x|)
  {
    Widths();
    AtSplit(b, pos, Byte2(|x|), x);
    IntAt(b, pos, |x|, 2);
  }

  lemma Field1At(b: Bytes, pos: nat, x: Bytes)
    requires |x| < 0x100 && At(b, pos, Byte1(|x|) + x)
    ensures TakeField(b, pos, 1) == Got(x, pos + 1 + |x|)
  {
    Widths();
    AtSplit(b, pos, Byte1(|x|), x);
    IntAt(b, pos, |x|, 1);
  }

  lemma TimestampAt(b: Bytes, pos: nat, t: Timestamp)
    requires TimestampFits(t) && At(b, pos, TimestampBytes(t))
    ensures ParseTimestamp(b, pos) == Got(t, pos + |TimestampBytes(t)|)
  {
    Widths();
    AtSplit(b, pos, Byte8(t.wall), Byte2(t.counter) + (Byte2(|t.node|) + t.node));
    AtSplit(b, pos + 8, Byte2(t.counter), Byte2(|t.node|) + t.node);
    IntAt(b, pos, t.wall, 8);
    IntAt(b, pos + 8, t.counter, 2);
    Field2At(b, pos + 10, t.node);
  }

  lemma AddressAt(b: Bytes, pos: nat, a: Address)
    requires AddressFits(a) && At(b, pos, AddressBytes(a))
    ensures ParseAddress(b, pos) == Got(a, pos + |AddressBytes(a)|)
  {
    var first, second := Byte1(|a.namespace|) + a.namespace, Byte1(|a.key|) + a.key;
    assert AddressBytes(a) == first + second;
    AtSplit(b, pos, first, second);
    Field1At(b, pos, a.namespace);
    Field1At(b, pos + |first|, a.key);
  }

  lemma PlaceAt(b: Bytes, pos: nat, p: Place)
    requires PlaceFits(p) && At(b, pos, PlaceBytes(p))
    ensures ParsePlace(b, pos) == Got(p, pos + |PlaceBytes(p)|)
  {
    Widths();
    AtSplit(b, pos, Byte4(p.pid), AddressBytes(p.address));
    IntAt(b, pos, p.pid, 4);
    AddressAt(b, pos + 4, p.address);
  }

  lemma PidAt(b: Bytes, pos: nat, pid: nat)
    requires pid < 0x1_0000_0000 && At(b, pos, Byte4(pid))
    ensures TakeInt(b, pos, PID_SIZE) == Got(pid, pos + 4)
  {
    Widths();
    IntAt(b, pos, pid, 4);
  }

  lemma TagsLength(k: Key)
    ensures |TagsBytes(k)| == 4 + |TimestampBytes(k.ts)| + |AddressBytes(k.address)|
  {
  }

  lemma TagsParts(b: Bytes, pos: nat, k: Key)
    requires At(b, pos, TagsBytes(k))
    ensures var t, a := TimestampBytes(k.ts), AddressBytes(k.address);
            At(b, pos, Byte4(k.pid)) && At(b, pos + 4, t) && At(b, pos + 4 + |t|, a)
  {
    var t, a := TimestampBytes(k.ts), AddressBytes(k.address);
    AtSplit(b, pos, Byte4(k.pid), t + a);
    AtSplit(b, pos + 4, t, a);
  }

  /** The three fields of a TAGS key, read one after the other. */
  lemma TagsFields(b: Bytes, pos: nat, k: Key, p1: nat, p2: nat, p3: nat)
    requires At(b, pos, TagsBytes(k))
    requires p1 == pos + 4 && p2 == p1 + |TimestampBytes(k.ts)| && p3 == p2 + |AddressBytes(k.address)|
    ensures TakeInt(b, pos, PID_SIZE) == Got(k.pid, p1)
    ensures ParseTimestamp(b, p1) == Got(k.ts, p2) && ParseAddress(b, p2) == Got(k.address, p3)
  {
    TagsParts(b, pos, k);
    PidAt(b, pos, k.pid);
    TimestampAt(b, p1, k.ts);
    AddressAt(b, p2, k.address);
  }

  lemma TagsAt(b: Bytes, pos: nat, k: Key)
    requires At(b, pos, TagsBytes(k))
    ensures ParseKey(b, pos, TAGS) == Got(k, pos + |TagsBytes(k)|)
  {
    var p1 := pos + 4;
    var p2 := p1 + |TimestampBytes(k.ts)|;
    var p3 := p2 + |AddressBytes(k.address)|;
    TagsFields(b, pos, k, p1, p2, p3);
    ParseTagsSteps(b, pos, k, p1, p2, p3);
    TagsLength(k);
  }

  lemma ParseTagsSteps(b: Bytes, pos: nat, k: RawKey, p1: nat, p2: nat, p3: nat)
    requires k.pid >= 0 && TakeInt(b, pos, PID_SIZE) == Got(k.pid, p1)
    requires ParseTimestamp(b, p1) == Got(k.ts, p2) && ParseAddress(b, p2) == Got(k.address, p3)
    ensures ParseKey(b, pos, TAGS) == Got(k, p3)
  {
  }

  /** The two parts of a LOGS key, read one after the other. */
  lemma LogsFields(b: Bytes, pos: nat, k: Key, p1: nat, p2: nat)
    requires At(b, pos, LogsBytes(k)) && p1 == pos + |PlaceBytes(PlaceOf(k))| && p2 == p1 + |TimestampBytes(k.ts)|
    ensures ParsePlace(b, pos) == Got(PlaceOf(k), p1) && ParseTimestamp(b, p1) == Got(k.ts, p2)
  {
    AtSplit(b, pos, PlaceBytes(PlaceOf(k)), TimestampBytes(k.ts));
    PlaceAt(b, pos, PlaceOf(k));
    TimestampAt(b, p1, k.ts);
  }

  lemma LogsAt(b: Bytes, pos: nat, k: Key)
    requires At(b, pos, LogsBytes(k))
    ensures ParseKey(b, pos, LOGS) == Got(k, pos + |LogsBytes(k)|)
  {
    var p1 := pos + |PlaceBytes(PlaceOf(k))|;
    var p2 := p1 + |TimestampBytes(k.ts)|;
    LogsFields(b, pos, k, p1, p2);
    ParseLogsSteps(b, pos, k, p1, p2);
  }

  lemma ParseLogsSteps(b: Bytes, pos: nat, k: RawKey, p1: nat, p2: nat)
    requires ParsePlace(b, pos) == Got(PlaceOf(k), p1) && ParseTimestamp(b, p1) == Got(k.ts, p2)
    ensures ParseKey(b, pos, LOGS) == Got(k, p2)
  {
  }

  /** A key encodes exactly when its fields fit, and then decodes to itself, whatever follows it. */
  lemma KeyRoundTrip(k: RawKey, ks: Keyspace, rest: Bytes)
    ensures EncodeKey(k, ks) != None <==>
            && 0 <= k.pid <= 0xFFFF_FFFF && 0 <= k.ts.wall <= 0xFFFF_FFFF_FFFF_FFFF && 0 <= k.ts.counter <= 0xFFFF
            && |k.ts.node| < 64 && |k.address.namespace| < 64 && |k.address.key| < 129
    ensures match EncodeKey(k, ks)
            case None => true
            case Some(b) => ParseKey(b + rest, 0, ks) == Got(k, |b|)
  {
    if Encodable(k) {
      var b := if ks == TAGS then TagsBytes(k) else LogsBytes(k);
      assert (b + rest)[0..|b|] == b;
      if ks == TAGS {
        TagsAt(b + rest, 0, k);
      } else {
        LogsAt(b + rest, 0, k);
      }
    }
  }

  lemma ObligationRoundTrip(o: RawObligation)
    ensures EncodeObligation(o) != None <==> 0 < |o.target| < 64 && EncodeKey(o.key, TAGS) != None
    ensures match EncodeObligation(o)
            case None => true
            case Some(b) => DecodeObligation(b) == Some(o)
  {
    if ObligationEncodable(o) {
      var b := ObligationBytes(o);
      var field, tags := Byte2(|o.target|) + o.target, TagsBytes(o.key);
      assert At(b, 0, b);
      AtSplit(b, 0, [OBLIGATION_KIND], field + tags);
      AtSplit(b, 1, field, tags);
      Field2At(b, 1, o.target);
      TagsAt(b, 1 + |field|, o.key);
    }
  }

  /** Two keys never share a physical form, in either keyspace. */
  lemma KeyBytesInjective(j: Key, k: Key)
    ensures TagsBytes(j) == TagsBytes(k) ==> j == k
    ensures LogsBytes(j) == LogsBytes(k) ==> j == k
  {
    KeyRoundTrip(j, TAGS, []);
    KeyRoundTrip(k, TAGS, []);
    KeyRoundTrip(j, LOGS, []);
    KeyRoundTrip(k, LOGS, []);
  }

  /** A prefix scan of LOGS by a partition address meets that address and no other. */
  lemma PlacePrefix(p: Place, k: Key)
    requires PlaceFits(p)
    ensures PlaceBytes(p) <= LogsBytes(k) <==> p == PlaceOf(k)
  {
    var b := LogsBytes(k);
    assert b[0..|PlaceBytes(PlaceOf(k))|] == PlaceBytes(PlaceOf(k));
    PlaceAt(b, 0, PlaceOf(k));
    if PlaceBytes(p) <= b {
      assert b[0..|PlaceBytes(p)|] == PlaceBytes(p);
      PlaceAt(b, 0, p);
    }
  }

  // ----------------------------------------------------------------- orders

  /** `HLCTimestamp` order: wall, counter, node id. */
  predicate HlcLess(a: Timestamp, b: Timestamp) {
    || a.wall < b.wall
    || (a.wall == b.wall && a.counter < b.counter)
    || (a.wall == b.wall && a.counter == b.counter && LexLess(a.node, b.node))
  }

  /** The two timestamps differ only by node ids whose lengths and bytes sort in opposite ways. */
  predicate Inverted(a: Timestamp, b: Timestamp) {
    && a.wall == b.wall && a.counter == b.counter && |a.node| != |b.node|
    && (LexLess(a.node, b.node) != (|a.node| < |b.node|))
  }

  /** Byte order of encoded timestamps: wall, counter, length of the node id, node id. */
  lemma TimestampByteOrder(a: Timestamp, b: Timestamp)
    requires TimestampFits(a) && TimestampFits(b)
    ensures LexLess(TimestampBytes(a), TimestampBytes(b)) <==>
            || a.wall < b.wall
            || (a.wall == b.wall && a.counter < b.counter)
            || (a.wall == b.wall && a.counter == b.counter && |a.node| < |b.node|)
            || (a.wall == b.wall && a.counter == b.counter && |a.node| == |b.node| && LexLess(a.node, b.node))
  {
    Widths();
    var la, lb := Byte2(|a.node|) + a.node, Byte2(|b.node|) + b.node;
    var ca, cb := Byte2(a.counter) + la, Byte2(b.counter) + lb;
    FieldOrder(a.wall, b.wall, 8, ca, cb);
    FieldOrder(a.counter, b.counter, 2, la, lb);
    FieldOrder(|a.node|, |b.node|, 2, a.node, b.node);
  }

  lemma FieldOrder(n: nat, m: nat, width: nat, a: Bytes, b: Bytes)
    requires n < Pow256(width) && m < Pow256(width)
    ensures LexLess(BigEndian(n, width) + a, BigEndian(m, width) + b) <==> n < m || (n == m && LexLess(a, b))
  {
    BigEndianOrder(n, m, width);
    if n == m {
      LexCommonPrefix(BigEndian(n, width), a, b);
    } else {
      LexDistinctPrefix(BigEndian(n, width), BigEndian(m, width), a, b);
    }
  }

  /** Encoded timestamps sort like timestamps except exactly for an inverted pair of node ids. */
  lemma ByteOrderIsHlcOrder(a: Timestamp, b: Timestamp)
    requires TimestampFits(a) && TimestampFits(b)
    ensures (LexLess(TimestampBytes(a), TimestampBytes(b)) <==> HlcLess(a, b)) <==> !Inverted(a, b)
  {
    TimestampByteOrder(a, b);
    LexIrreflexive(a.node);
  }

  /** Node ids "b" and "aa": the timestamp of "aa" is the older one and sorts last. */
  lemma ByteOrderInversionExists()
    ensures exists a, b: Timestamp ::
              TimestampFits(a) && TimestampFits(b) && HlcLess(a, b) && LexLess(TimestampBytes(b), TimestampBytes(a))
  {
    var a, b := Timestamp(7, 0, [97, 97]), Timestamp(7, 0, [98]);
    assert LexLess(a.node, b.node);
    TimestampByteOrder(b, a);
    assert TimestampFits(a) && TimestampFits(b) && HlcLess(a, b) && LexLess(TimestampBytes(b), TimestampBytes(a));
  }

  // ------------------------------------------------------------ time ranges

  /** `pid | wall`: the ends of the TAGS ranges that bound buckets and cutoffs. */
  function WallBound(pid: int, wall: int): Bytes
    requires 0 <= pid < 0x1_0000_0000 && 0 <= wall < 0x1_0000_0000_0000_0000
  {
    Byte4(pid) + Byte8(wall)
  }

  /** A bound `pid | w` separates the versions of `pid` before wall time `w` from the others. */
  lemma WallBoundSeparates(k: Key, wall: int)
    requires 0 <= wall < 0x1_0000_0000_0000_0000
    ensures LexLess(WallBound(k.pid, wall), TagsBytes(k)) <==> wall <= k.ts.wall
    ensures LexLess(TagsBytes(k), WallBound(k.pid, wall)) <==> k.ts.wall < wall
  {
    Widths();
    var rest := (Byte2(k.ts.counter) + (Byte2(|k.ts.node|) + k.ts.node)) + AddressBytes(k.address);
    var tail := Byte8(k.ts.wall) + rest;
    assert TagsBytes(k) == Byte4(k.pid) + tail;
    assert WallBound(k.pid, wall) == Byte4(k.pid) + (Byte8(wall) + []);
    LexCommonPrefix(Byte4(k.pid), Byte8(wall) + [], tail);
    LexCommonPrefix(Byte4(k.pid), tail, Byte8(wall) + []);
    FieldOrder(wall, k.ts.wall, 8, [], rest);
    FieldOrder(k.ts.wall, wall, 8, rest, []);
  }

  lemma WallBoundOrder(pid: int, v: int, w: int)
    requires 0 <= pid < 0x1_0000_0000
    requires 0 <= v < 0x1_0000_0000_0000_0000 && 0 <= w < 0x1_0000_0000_0000_0000
    ensures LexLess(WallBound(pid, v), WallBound(pid, w)) <==> v < w
  {
    Widths();
    LexCommonPrefix(Byte4(pid), Byte8(v), Byte8(w));
    BigEndianOrder(v, w, 8);
  }

  /** A version lies between the bounds of a time bucket exactly when it belongs to that bucket. */
  lemma BucketBoundsExact(k: Key, pid: int, bucket: nat, width: nat)
    requires 0 <= pid < 0x1_0000_0000 && width > 0 && (bucket + 1) * width < 0x1_0000_0000_0000_0000
    ensures && LexLess(WallBound(pid, bucket * width), TagsBytes(k))
            && LexLess(TagsBytes(k), WallBound(pid, (bucket + 1) * width))
            <==>
            k.pid == pid && k.ts.wall / width == bucket
  {
    Widths();
    var lo, hi := bucket * width, (bucket + 1) * width;
    assert hi == lo + width;
    if k.pid == pid {
      WallBoundSeparates(k, lo);
      WallBoundSeparates(k, hi);
      BucketOf(k.ts.wall, bucket, width);
    } else {
      var tail := TimestampBytes(k.ts) + AddressBytes(k.address);
      FieldOrder(pid, k.pid, 4, Byte8(lo), tail);
      FieldOrder(k.pid, pid, 4, tail, Byte8(hi));
    }
  }

  lemma BucketOf(wall: nat, bucket: nat, width: nat)
    requires width > 0
    ensures bucket * width <= wall < (bucket + 1) * width <==> wall / width == bucket
  {
    var q := wall / width;
    assert wall == q * width + wall % width;
    if q < bucket {
      assert (q + 1) * width <= bucket * width;
    } else if q > bucket {
      assert (bucket + 1) * width <= q * width;
    }
  }
}
