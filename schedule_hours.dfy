/**
 * The logon-hours and site-link schedule codecs of the schedule dialog: a week
 * is a grid of 7 days (Sunday first) by 24 hours; logonHours stores it as 21
 * bytes, one bit per hour with the least significant bit first, and a site
 * link schedule as a 20-byte header followed by one byte per hour. Both are
 * rotated by the local UTC offset (in hours) for display.
 */
module ScheduleHours {
  import opened QtText

  type byte = bv8
  type Grid = seq<seq<bool>>

  const DAYS_IN_WEEK: nat := 7
  const HOURS_IN_DAY: nat := 24
  const HOURS_IN_WEEK: nat := 168
  const LOGON_HOURS_SIZE: nat := 21
  const SITE_LINK_SCHEDULE_TOTAL_SIZE: nat := 188
  const SITE_LINK_SCHEDULE_HEADER_SIZE: nat := 20
  const SITE_LINK_SCHEDULE_DATA_SIZE: nat := 168
  const SITE_LINK_SCHEDULE_ALLOWED: byte := 0xFF
  const SITE_LINK_SCHEDULE_DENIED: byte := 0xF0

  /** Size 188, bandwidth 0, one schedule, reserved 0, offset 20; each a little-endian 32-bit field. */
  const SITE_LINK_SCHEDULE_HEADER: seq<byte> :=
    [0xBC, 0x00, 0x00, 0x00,
     0x00, 0x00, 0x00, 0x00,
     0x01, 0x00, 0x00, 0x00,
     0x00, 0x00, 0x00, 0x00,
     0x14, 0x00, 0x00, 0x00]

  /** The bit masks 0x01 << i. */
  const MASKS: seq<byte> := [0x01, 0x02, 0x04, 0x08, 0x10, 0x20, 0x40, 0x80]

  function Abs(x: int): nat
  {
    if x < 0 then -x else x
  }

  // ------------------------------------------------------------ shift_list

  /** The source position of output position i, wrapped once in either direction. */
  function ShiftIndex(i: int, shift: int, n: int): int
  {
    var j := i - shift;
    if j < 0 then j + n else if j >= n then j - n else j
  }

  /**
   * shift_list: a shift larger than the list in absolute value leaves it
   * alone; otherwise the list is rotated right by the shift: out[i] is
   * list[(i - shift) mod n].
   */
  function Shifted(list: seq<bool>, shift: int): (r: seq<bool>)
    ensures |r| == |list|
    ensures Abs(shift) > |list| ==> r == list
    ensures 0 <= shift <= |list| ==> r == list[|list| - shift..] + list[..|list| - shift]
    ensures -|list| <= shift < 0 ==> r == list[-shift..] + list[..-shift]
  {
    if Abs(shift) > |list| then list
    else
      var n := |list|;
      var r := seq(n, i requires 0 <= i < n => list[ShiftIndex(i, shift, n)]);
      assert 0 <= shift ==> r == list[n - shift..] + list[..n - shift];
      assert shift < 0 ==> r == list[-shift..] + list[..-shift];
      r
  }

  /** Output position i of a rotation takes list position ShiftIndex(i, shift, n). */
  lemma ShiftedAt(list: seq<bool>, shift: int, i: int)
    requires Abs(shift) <= |list| && 0 <= i < |list|
    ensures 0 <= ShiftIndex(i, shift, |list|) < |list|
    ensures Shifted(list, shift)[i] == list[ShiftIndex(i, shift, |list|)]
  {
  }

  /** The loop of shift_list. */
  method ShiftList(list: seq<bool>, shift: int) returns (out: seq<bool>)
    ensures out == Shifted(list, shift)
  {
    if Abs(shift) > |list| {
      return list;
    }
    out := [];
    var i := 0;
    while i < |list|
      invariant 0 <= i <= |list| && |out| == i
      invariant forall j :: 0 <= j < i ==> out[j] == list[ShiftIndex(j, shift, |list|)]
    {
      var shifted := i - shift;
      if shifted < 0 {
        shifted := shifted + |list|;
      } else if shifted >= |list| {
        shifted := shifted - |list|;
      }
      out := out + [list[shifted]];
      i := i + 1;
    }
    forall j | 0 <= j < |list|
      ensures out[j] == Shifted(list, shift)[j]
    {
      ShiftedAt(list, shift, j);
    }
  }

  /** Shifting back by the opposite amount restores the list. */
  lemma ShiftBack(list: seq<bool>, shift: int)
    ensures Shifted(Shifted(list, shift), -shift) == list
  {
    var n := |list|;
    if Abs(shift) <= n {
      var once := Shifted(list, shift);
      var back := Shifted(once, -shift);
      forall i | 0 <= i < n
        ensures back[i] == list[i]
      {
        var j := ShiftIndex(i, -shift, n);
        ShiftedAt(once, -shift, i);
        ShiftedAt(list, shift, j);
        ShiftIndexBack(i, shift, n);
      }
    }
  }

  /** Rotating an index one way and then the other gives it back. */
  lemma ShiftIndexBack(i: int, shift: int, n: int)
    requires Abs(shift) <= n && 0 <= i < n
    ensures ShiftIndex(ShiftIndex(i, -shift, n), shift, n) == i
  {
  }

  // ------------------------------------------------------------- bytes, bits

  /** bitmask_is_set: all bits of the mask are set in the byte. */
  predicate BitmaskIsSet(b: byte, mask: byte)
  {
    b & mask == mask
  }

  /** bitmask_set: set or clear the bits of the mask. */
  function BitmaskSet(b: byte, mask: byte, set_: bool): byte
  {
    if set_ then b | mask else b & !mask
  }

  /** The eight hours of one logonHours byte, least significant bit first. */
  function BitsOf(b: byte): (bits: seq<bool>)
    ensures |bits| == 8
  {
    seq(8, i requires 0 <= i < 8 => BitmaskIsSet(b, MASKS[i]))
  }

  /** The byte the bit loop of logon_hours_to_bytes builds from the first n of eight hours. */
  function ByteUpTo(bits: seq<bool>, n: nat): byte
    requires |bits| == 8 && n <= 8
  {
    if n == 0 then 0 else BitmaskSet(ByteUpTo(bits, n - 1), MASKS[n - 1], bits[n - 1])
  }

  /** The byte of eight hours. */
  function ByteOf(bits: seq<bool>): byte
    requires |bits| == 8
  {
    ByteUpTo(bits, 8)
  }

  /** The bit loop over one byte. */
  method PackByte(bits: seq<bool>) returns (b: byte)
    requires |bits| == 8
    ensures b == ByteOf(bits)
  {
    b := 0;
    for i := 0 to 8
      invariant b == ByteUpTo(bits, i)
    {
      b := BitmaskSet(b, MASKS[i], bits[i]);
    }
  }

  /** Setting or clearing one bit leaves the other bits as they were. */
  lemma SetBit(b: byte, i: nat, v: bool, j: nat)
    requires i < 8 && j < 8
    ensures BitmaskIsSet(BitmaskSet(b, MASKS[i], v), MASKS[j]) == if i == j then v else BitmaskIsSet(b, MASKS[j])
  {
  }

  /** Bit j of the byte built from the first n hours is hour j if j < n, and clear otherwise. */
  lemma {:induction false} ByteUpToBit(bits: seq<bool>, n: nat, j: nat)
    requires |bits| == 8 && n <= 8 && j < 8
    ensures BitmaskIsSet(ByteUpTo(bits, n), MASKS[j]) == (j < n && bits[j])
  {
    if n == 0 {
      assert MASKS[j] != 0;
    } else {
      ByteUpToBit(bits, n - 1, j);
      SetBit(ByteUpTo(bits, n - 1), n - 1, bits[n - 1], j);
    }
  }

  /** Packing eight hours and reading them back gives the same hours, and conversely. */
  lemma BitsOfByteOf(bits: seq<bool>)
    requires |bits| == 8
    ensures BitsOf(ByteOf(bits)) == bits
  {
    forall j | 0 <= j < 8
      ensures BitsOf(ByteOf(bits))[j] == bits[j]
    {
      ByteUpToBit(bits, 8, j);
    }
  }

  lemma ByteOfBitsOf(b: byte)
    ensures ByteOf(BitsOf(b)) == b
  {
    var bits := BitsOf(b);
    assert MASKS[0] == 0x01 && MASKS[1] == 0x02 && MASKS[2] == 0x04 && MASKS[3] == 0x08;
    assert MASKS[4] == 0x10 && MASKS[5] == 0x20 && MASKS[6] == 0x40 && MASKS[7] == 0x80;
    var b1 := BitmaskSet(0, 0x01, bits[0]);
    var b2 := BitmaskSet(b1, 0x02, bits[1]);
    var b3 := BitmaskSet(b2, 0x04, bits[2]);
    var b4 := BitmaskSet(b3, 0x08, bits[3]);
    var b5 := BitmaskSet(b4, 0x10, bits[4]);
    var b6 := BitmaskSet(b5, 0x20, bits[5]);
    var b7 := BitmaskSet(b6, 0x40, bits[6]);
    var b8 := BitmaskSet(b7, 0x80, bits[7]);
    assert ByteUpTo(bits, 1) == b1;
    assert ByteUpTo(bits, 2) == b2;
    assert ByteUpTo(bits, 3) == b3;
    assert ByteUpTo(bits, 4) == b4;
    assert ByteUpTo(bits, 5) == b5;
    assert ByteUpTo(bits, 6) == b6;
    assert ByteUpTo(bits, 7) == b7;
    assert ByteOf(bits) == b8;
    assert bits[0] == (b & 0x01 == 0x01) && bits[1] == (b & 0x02 == 0x02);
    assert bits[2] == (b & 0x04 == 0x04) && bits[3] == (b & 0x08 == 0x08);
    assert bits[4] == (b & 0x10 == 0x10) && bits[5] == (b & 0x20 == 0x20);
    assert bits[6] == (b & 0x40 == 0x40) && bits[7] == (b & 0x80 == 0x80);
  }

  /** The hours of a byte array: hour 8j + i is bit i of byte j. */
  function Unpack(bytes: seq<byte>): (hours: seq<bool>)
    ensures |hours| == 8 * |bytes|
  {
    seq(8 * |bytes|, k requires 0 <= k < 8 * |bytes| => BitmaskIsSet(bytes[k / 8], MASKS[k % 8]))
  }

  /** The bytes of a run of hours, eight per byte. */
  function Pack(hours: seq<bool>): (bytes: seq<byte>)
    requires |hours| % 8 == 0
    ensures |bytes| == |hours| / 8
  {
    seq(|hours| / 8, j requires 0 <= j < |hours| / 8 => ByteOf(hours[8 * j..8 * j + 8]))
  }

  lemma UnpackSnoc(bytes: seq<byte>, b: byte)
    ensures Unpack(bytes + [b]) == Unpack(bytes) + BitsOf(b)
  {
    var l := Unpack(bytes + [b]);
    var r := Unpack(bytes) + BitsOf(b);
    forall k | 0 <= k < |l|
      ensures l[k] == r[k]
    {
      if k >= 8 * |bytes| {
        assert k / 8 == |bytes| && k % 8 == k - 8 * |bytes|;
      }
    }
  }

  /** Below a length that is a multiple of 8, a byte that starts fits whole. */
  lemma NextByteFits(i: int, n: int)
    requires n % 8 == 0 && 0 <= 8 * i < n
    ensures 8 * i + 8 <= n
  {
  }

  lemma PackSnoc(hours: seq<bool>, i: nat)
    requires 8 * i + 8 <= |hours|
    ensures Pack(hours[..8 * i + 8]) == Pack(hours[..8 * i]) + [ByteOf(hours[8 * i..8 * i + 8])]
  {
    var l := Pack(hours[..8 * i + 8]);
    var r := Pack(hours[..8 * i]) + [ByteOf(hours[8 * i..8 * i + 8])];
    forall j | 0 <= j < |l|
      ensures l[j] == r[j]
    {
      assert hours[..8 * i + 8][8 * j..8 * j + 8] == hours[8 * j..8 * j + 8];
      if j < i {
        assert hours[..8 * i][8 * j..8 * j + 8] == hours[8 * j..8 * j + 8];
      }
    }
  }

  lemma UnpackPack(hours: seq<bool>)
    requires |hours| % 8 == 0
    ensures Unpack(Pack(hours)) == hours
  {
    var p := Pack(hours);
    var u := Unpack(p);
    forall k | 0 <= k < |hours|
      ensures u[k] == hours[k]
    {
      var j, i := k / 8, k % 8;
      var bits := hours[8 * j..8 * j + 8];
      BitsOfByteOf(bits);
      assert u[k] == BitsOf(p[j])[i];
    }
  }

  lemma PackUnpack(bytes: seq<byte>)
    ensures Pack(Unpack(bytes)) == bytes
  {
    var u := Unpack(bytes);
    var p := Pack(u);
    forall j | 0 <= j < |bytes|
      ensures p[j] == bytes[j]
    {
      ByteOfBitsOf(bytes[j]);
      assert u[8 * j..8 * j + 8] == BitsOf(bytes[j]);
    }
  }

  // ---------------------------------------------------------------- the grid

  /** The week as 7 days of 24 hours. */
  predicate IsGrid(g: Grid)
  {
    |g| == DAYS_IN_WEEK && forall d :: 0 <= d < |g| ==> |g[d]| == HOURS_IN_DAY
  }

  /** The day lists of a run of hours: joined.mid(i, 24) for i = 0, 24, ... */
  function Days(joined: seq<bool>): (g: Grid)
    ensures |g| == (|joined| + HOURS_IN_DAY - 1) / HOURS_IN_DAY
  {
    var n := (|joined| + HOURS_IN_DAY - 1) / HOURS_IN_DAY;
    seq(n, d requires 0 <= d < n => Mid(joined, HOURS_IN_DAY * d, HOURS_IN_DAY))
  }

  /** The day lists concatenated. */
  function Flatten(g: Grid): (joined: seq<bool>)
  {
    if |g| == 0 then [] else Flatten(g[..|g| - 1]) + g[|g| - 1]
  }

  /** A week of hours splits into a grid, hour h of day d being hour 24d + h. */
  lemma DaysOfWeek(joined: seq<bool>)
    requires |joined| == HOURS_IN_WEEK
    ensures IsGrid(Days(joined))
    ensures forall d, h :: 0 <= d < DAYS_IN_WEEK && 0 <= h < HOURS_IN_DAY ==>
              Days(joined)[d][h] == joined[HOURS_IN_DAY * d + h]
  {
  }

  lemma {:induction false} FlattenRows(g: Grid)
    requires forall d :: 0 <= d < |g| ==> |g[d]| == HOURS_IN_DAY
    ensures |Flatten(g)| == HOURS_IN_DAY * |g|
    ensures forall d, h :: 0 <= d < |g| && 0 <= h < HOURS_IN_DAY ==> Flatten(g)[HOURS_IN_DAY * d + h] == g[d][h]
  {
    if |g| > 0 {
      FlattenRows(g[..|g| - 1]);
    }
  }

  /** Splitting the flattened grid gives the grid back, and flattening the split week gives the week. */
  lemma DaysFlatten(g: Grid)
    requires IsGrid(g)
    ensures Days(Flatten(g)) == g
  {
    DaysFlattenAt(g, 0, 0);
    forall d | 0 <= d < DAYS_IN_WEEK
      ensures Days(Flatten(g))[d] == g[d]
    {
      DaysFlattenRow(g, d);
    }
  }

  /** One day of the flattened and re-split grid. */
  lemma DaysFlattenRow(g: Grid, d: int)
    requires IsGrid(g) && 0 <= d < DAYS_IN_WEEK
    ensures |Days(Flatten(g))| == DAYS_IN_WEEK && Days(Flatten(g))[d] == g[d]
  {
    DaysFlattenAt(g, d, 0);
    forall h | 0 <= h < HOURS_IN_DAY
      ensures Days(Flatten(g))[d][h] == g[d][h]
    {
      DaysFlattenAt(g, d, h);
    }
  }

  /** One hour of the flattened and re-split grid. */
  lemma DaysFlattenAt(g: Grid, d: int, h: int)
    requires IsGrid(g) && 0 <= d < DAYS_IN_WEEK && 0 <= h < HOURS_IN_DAY
    ensures |Flatten(g)| == HOURS_IN_WEEK && IsGrid(Days(Flatten(g)))
    ensures Days(Flatten(g))[d][h] == g[d][h]
  {
    FlattenRows(g);
    DaysOfWeek(Flatten(g));
  }

  lemma FlattenDays(joined: seq<bool>)
    requires |joined| == HOURS_IN_WEEK
    ensures Flatten(Days(joined)) == joined
  {
    DaysOfWeek(joined);
    FlattenRows(Days(joined));
    var f := Flatten(Days(joined));
    forall k | 0 <= k < HOURS_IN_WEEK
      ensures f[k] == joined[k]
    {
      var d, h := HourOfWeek(k);
      assert f[HOURS_IN_DAY * d + h] == Days(joined)[d][h];
    }
  }

  /** An hour of the week is hour h of day d. */
  lemma HourOfWeek(k: int) returns (d: int, h: int)
    requires 0 <= k < HOURS_IN_WEEK
    ensures 0 <= d < DAYS_IN_WEEK && 0 <= h < HOURS_IN_DAY && k == HOURS_IN_DAY * d + h
  {
    d, h := k / HOURS_IN_DAY, k % HOURS_IN_DAY;
  }

  /** The day loop of the decoders. */
  method SplitDays(joined: seq<bool>) returns (out: Grid)
    ensures out == Days(joined)
  {
    out := [];
    var i := 0;
    while i < |joined|
      invariant 0 <= i && i % HOURS_IN_DAY == 0
      invariant i <= |joined| || i < |joined| + HOURS_IN_DAY
      invariant out == Days(joined)[..i / HOURS_IN_DAY]
    {
      out := out + [Mid(joined, i, HOURS_IN_DAY)];
      i := i + HOURS_IN_DAY;
    }
  }

  /** The join loop of the encoders. */
  method JoinDays(g: Grid) returns (out: seq<bool>)
    ensures out == Flatten(g)
  {
    out := [];
    for d := 0 to |g|
      invariant out == Flatten(g[..d])
    {
      assert g[..d + 1][..d] == g[..d];
      out := out + g[d];
    }
    assert g[..|g|] == g;
  }

  // ------------------------------------------------------------- logonHours

  /** A logonHours value of any other size than 21 bytes allows every hour. */
  function LogonHoursBytes(value: seq<byte>): (bytes: seq<byte>)
    ensures |bytes| == LOGON_HOURS_SIZE
  {
    if |value| == LOGON_HOURS_SIZE then value else seq(LOGON_HOURS_SIZE, _ => 0xFF)
  }

  /** logon_hours_to_bools. */
  function LogonGrid(value: seq<byte>, offset: int): (g: Grid)
    ensures IsGrid(g)
  {
    var joined := Shifted(Unpack(LogonHoursBytes(value)), offset);
    DaysOfWeek(joined);
    Days(joined)
  }

  /** logon_hours_to_bytes, defined for grids whose hours fill whole bytes. */
  function LogonBytes(g: Grid, offset: int): (bytes: seq<byte>)
    requires |Flatten(g)| % 8 == 0
  {
    Pack(Shifted(Flatten(g), -offset))
  }

  /** Before shifting, hour 8j + i of the week is bit i of byte j, Sunday 00:00 first. */
  lemma LogonHourBits(value: seq<byte>, d: nat, h: nat)
    requires |value| == LOGON_HOURS_SIZE && d < DAYS_IN_WEEK && h < HOURS_IN_DAY
    ensures var hour := HOURS_IN_DAY * d + h;
            LogonGrid(value, 0)[d][h] == BitmaskIsSet(value[hour / 8], MASKS[hour % 8])
  {
    var joined := Unpack(value);
    var hour := HOURS_IN_DAY * d + h;
    assert Shifted(joined, 0) == joined by {
      assert joined[|joined|..] + joined[..|joined|] == joined;
    }
    DaysOfWeek(joined);
    assert LogonGrid(value, 0)[d][h] == joined[hour];
  }

  /** A value of the wrong size decodes as "every hour allowed". */
  lemma MalformedLogonHoursAllowAll(value: seq<byte>, offset: int, d: nat, h: nat)
    requires |value| != LOGON_HOURS_SIZE && d < DAYS_IN_WEEK && h < HOURS_IN_DAY
    ensures LogonGrid(value, offset)[d][h]
  {
    var unpacked := Unpack(LogonHoursBytes(value));
    assert forall k :: 0 <= k < |unpacked| ==> unpacked[k] by {
      forall k | 0 <= k < |unpacked|
        ensures unpacked[k]
      {
        assert unpacked[8 * (k / 8) + k % 8] == BitmaskIsSet(0xFF, MASKS[k % 8]);
      }
    }
    var joined := Shifted(unpacked, offset);
    DaysOfWeek(joined);
  }

  /** Encoding a grid and decoding it with the same offset gives the grid back. */
  lemma LogonRoundTrip(g: Grid, offset: int)
    requires IsGrid(g)
    ensures |Flatten(g)| % 8 == 0
    ensures |LogonBytes(g, offset)| == LOGON_HOURS_SIZE
    ensures LogonGrid(LogonBytes(g, offset), offset) == g
  {
    FlattenRows(g);
    var shifted := Shifted(Flatten(g), -offset);
    UnpackPack(shifted);
    ShiftBack(Flatten(g), -offset);
    DaysFlatten(g);
  }

  /** A 21-byte value decoded and encoded again with the same offset is unchanged. */
  lemma LogonBytesRoundTrip(value: seq<byte>, offset: int)
    requires |value| == LOGON_HOURS_SIZE
    ensures |Flatten(LogonGrid(value, offset))| % 8 == 0
    ensures LogonBytes(LogonGrid(value, offset), offset) == value
  {
    var joined := Shifted(Unpack(value), offset);
    FlattenDays(joined);
    ShiftBack(Unpack(value), offset);
    PackUnpack(value);
  }

  /** The loops of logon_hours_to_bools. */
  method LogonHoursToBools(value: seq<byte>, offset: int) returns (g: Grid)
    ensures g == LogonGrid(value, offset)
  {
    var bytes := if |value| == LOGON_HOURS_SIZE then value else seq(LOGON_HOURS_SIZE, _ => 0xFF);
    var joined: seq<bool> := [];
    for j := 0 to |bytes|
      invariant joined == Unpack(bytes[..j])
    {
      assert bytes[..j + 1] == bytes[..j] + [bytes[j]];
      UnpackSnoc(bytes[..j], bytes[j]);
      joined := joined + BitsOf(bytes[j]);
    }
    assert bytes[..|bytes|] == bytes;
    joined := ShiftList(joined, offset);
    g := SplitDays(joined);
  }

  /** The loops of logon_hours_to_bytes; the grid's hours must fill whole bytes. */
  method LogonHoursToBytes(g: Grid, offset: int) returns (bytes: seq<byte>)
    requires |Flatten(g)| % 8 == 0
    ensures bytes == LogonBytes(g, offset)
  {
    var joined := JoinDays(g);
    joined := ShiftList(joined, -offset);
    bytes := [];
    var i := 0;
    while i * 8 < |joined|
      invariant 0 <= 8 * i <= |joined| && |joined| % 8 == 0
      invariant bytes == Pack(joined[..8 * i])
    {
      NextByteFits(i, |joined|);
      var b := PackByte(joined[8 * i..8 * i + 8]);
      PackSnoc(joined, i);
      bytes := bytes + [b];
      i := i + 1;
    }
    assert joined[..8 * i] == joined;
  }

  // ------------------------------------------------------- site link schedule

  /** A site schedule payload of any other size than 168 bytes allows every hour. */
  function SitePayload(payload: seq<byte>): (bytes: seq<byte>)
    ensures |bytes| == SITE_LINK_SCHEDULE_DATA_SIZE
  {
    if |payload| == SITE_LINK_SCHEDULE_DATA_SIZE then payload
    else seq(SITE_LINK_SCHEDULE_DATA_SIZE, _ => SITE_LINK_SCHEDULE_ALLOWED)
  }

  /** One hour per byte: allowed iff the byte is 0xFF. */
  function AllowedHours(bytes: seq<byte>): (hours: seq<bool>)
    ensures |hours| == |bytes|
    ensures forall i :: 0 <= i < |bytes| ==> (hours[i] <==> bytes[i] == SITE_LINK_SCHEDULE_ALLOWED)
  {
    seq(|bytes|, i requires 0 <= i < |bytes| => bytes[i] == SITE_LINK_SCHEDULE_ALLOWED)
  }

  /** One byte per hour: 0xFF when allowed, 0xF0 when denied. */
  function HourBytes(hours: seq<bool>): (bytes: seq<byte>)
    ensures |bytes| == |hours|
    ensures forall i :: 0 <= i < |hours| ==>
              bytes[i] == if hours[i] then SITE_LINK_SCHEDULE_ALLOWED else SITE_LINK_SCHEDULE_DENIED
  {
    seq(|hours|, i requires 0 <= i < |hours| => if hours[i] then SITE_LINK_SCHEDULE_ALLOWED else SITE_LINK_SCHEDULE_DENIED)
  }

  /** site_schedule_bytes_to_bools. */
  function SiteGrid(payload: seq<byte>, offset: int): (g: Grid)
    ensures IsGrid(g)
  {
    var joined := Shifted(AllowedHours(SitePayload(payload)), offset);
    DaysOfWeek(joined);
    Days(joined)
  }

  /** bools_to_site_schedule_bytes. */
  function SiteBytes(g: Grid, offset: int): seq<byte>
  {
    HourBytes(Shifted(Flatten(g), -offset))
  }

  /** Encoding a grid as site schedule bytes and decoding it with the same offset gives the grid back. */
  lemma SiteRoundTrip(g: Grid, offset: int)
    requires IsGrid(g)
    ensures |SiteBytes(g, offset)| == SITE_LINK_SCHEDULE_DATA_SIZE
    ensures SiteGrid(SiteBytes(g, offset), offset) == g
  {
    FlattenRows(g);
    var shifted := Shifted(Flatten(g), -offset);
    assert AllowedHours(HourBytes(shifted)) == shifted;
    ShiftBack(Flatten(g), -offset);
    DaysFlatten(g);
  }

  /**
   * A 168-byte payload decoded and encoded again with the same offset keeps
   * every 0xFF byte and turns every other byte into 0xF0.
   */
  lemma SiteBytesRoundTrip(payload: seq<byte>, offset: int)
    requires |payload| == SITE_LINK_SCHEDULE_DATA_SIZE
    ensures var back := SiteBytes(SiteGrid(payload, offset), offset);
            |back| == |payload|
            && forall i :: 0 <= i < |payload| ==>
                 back[i] == if payload[i] == SITE_LINK_SCHEDULE_ALLOWED then SITE_LINK_SCHEDULE_ALLOWED else SITE_LINK_SCHEDULE_DENIED
  {
    var joined := Shifted(AllowedHours(payload), offset);
    FlattenDays(joined);
    ShiftBack(AllowedHours(payload), offset);
  }

  /** The loops of site_schedule_bytes_to_bools. */
  method SiteScheduleBytesToBools(payload: seq<byte>, offset: int) returns (g: Grid)
    ensures g == SiteGrid(payload, offset)
  {
    var bytes := if |payload| == SITE_LINK_SCHEDULE_DATA_SIZE then payload
                 else seq(SITE_LINK_SCHEDULE_DATA_SIZE, _ => SITE_LINK_SCHEDULE_ALLOWED);
    var joined := ReadAllowedHours(bytes);
    joined := ShiftList(joined, offset);
    g := SplitDays(joined);
  }

  /** The loops of bools_to_site_schedule_bytes. */
  method BoolsToSiteScheduleBytes(g: Grid, offset: int) returns (bytes: seq<byte>)
    ensures bytes == SiteBytes(g, offset)
  {
    var joined := JoinDays(g);
    joined := ShiftList(joined, -offset);
    bytes := WriteHourBytes(joined);
  }

  /** The byte loop of site_schedule_bytes_to_bools: one hour per byte. */
  method ReadAllowedHours(bytes: seq<byte>) returns (hours: seq<bool>)
    ensures hours == AllowedHours(bytes)
  {
    hours := [];
    for i := 0 to |bytes|
      invariant |hours| == i
      invariant forall k :: 0 <= k < i ==> (hours[k] <==> bytes[k] == SITE_LINK_SCHEDULE_ALLOWED)
    {
      hours := hours + [bytes[i] == SITE_LINK_SCHEDULE_ALLOWED];
    }
  }

  /** The byte loop of bools_to_site_schedule_bytes: one byte per hour. */
  method WriteHourBytes(hours: seq<bool>) returns (bytes: seq<byte>)
    ensures bytes == HourBytes(hours)
  {
    bytes := [];
    for i := 0 to |hours|
      invariant |bytes| == i
      invariant forall k :: 0 <= k < i ==>
                  bytes[k] == if hours[k] then SITE_LINK_SCHEDULE_ALLOWED else SITE_LINK_SCHEDULE_DENIED
    {
      bytes := bytes + [if hours[i] then SITE_LINK_SCHEDULE_ALLOWED else SITE_LINK_SCHEDULE_DENIED];
    }
  }

  // ------------------------------------------------------------ the dialog

  datatype ScheduleType = SiteLink | UserLogon

  /** A little-endian 32-bit field of a byte array. */
  function Le32(bytes: seq<byte>, at: nat): int
    requires at + 4 <= |bytes|
  {
    bytes[at] as int + 0x100 * bytes[at + 1] as int + 0x1_0000 * bytes[at + 2] as int + 0x100_0000 * bytes[at + 3] as int
  }

  /** The default site link schedule: the header, then every hour allowed. */
  function DefaultSiteSchedule(): (value: seq<byte>)
    ensures |value| == SITE_LINK_SCHEDULE_TOTAL_SIZE
    ensures Le32(value, 0) == SITE_LINK_SCHEDULE_TOTAL_SIZE && Le32(value, 8) == 1
            && Le32(value, 16) == SITE_LINK_SCHEDULE_HEADER_SIZE
    ensures value[SITE_LINK_SCHEDULE_HEADER_SIZE..] == seq(SITE_LINK_SCHEDULE_DATA_SIZE, _ => SITE_LINK_SCHEDULE_ALLOWED)
  {
    SITE_LINK_SCHEDULE_HEADER + seq(SITE_LINK_SCHEDULE_DATA_SIZE, _ => SITE_LINK_SCHEDULE_ALLOWED)
  }

  /** The grid shown for a value: the site payload after the header, or the logonHours bitmap. */
  function DecodedGrid(kind: ScheduleType, value: seq<byte>, offset: int): (g: Grid)
    ensures IsGrid(g)
  {
    if kind == SiteLink
    then SiteGrid(Mid(value, SITE_LINK_SCHEDULE_HEADER_SIZE, SITE_LINK_SCHEDULE_DATA_SIZE), offset)
    else LogonGrid(value, offset)
  }

  /** The cells of a grid that are set, as (day, hour) pairs. */
  function CellsOf(g: Grid): set<(int, int)>
    requires IsGrid(g)
  {
    set d, h | 0 <= d < DAYS_IN_WEEK && 0 <= h < HOURS_IN_DAY && g[d][h] :: (d, h)
  }

  /** The grid of a selection: false everywhere, then true at each selected cell of the week. */
  function GridOf(selection: set<(int, int)>): (g: Grid)
    ensures IsGrid(g)
  {
    seq(DAYS_IN_WEEK, d => seq(HOURS_IN_DAY, h => (d, h) in selection))
  }

  lemma GridOfCells(g: Grid)
    requires IsGrid(g)
    ensures GridOf(CellsOf(g)) == g
  {
    var back := GridOf(CellsOf(g));
    forall d | 0 <= d < DAYS_IN_WEEK
      ensures back[d] == g[d]
    {
      forall h | 0 <= h < HOURS_IN_DAY
        ensures back[d][h] == g[d][h]
      {
        assert back[d][h] == ((d, h) in CellsOf(g));
      }
    }
  }

  /** The encoding get writes for a changed grid. */
  function EncodedValue(kind: ScheduleType, g: Grid, offset: int): seq<byte>
  {
    if kind == SiteLink then SITE_LINK_SCHEDULE_HEADER + SiteBytes(g, offset)
    else if |Flatten(g)| % 8 == 0 then LogonBytes(g, offset)
    else []
  }

  /** The value get writes: the original bytes while the grid is the one they decode to, otherwise the encoding of the grid. */
  function ValueToWrite(kind: ScheduleType, originalValue: seq<byte>, g: Grid, offset: int): seq<byte>
  {
    if g == DecodedGrid(kind, originalValue, offset) then originalValue else EncodedValue(kind, g, offset)
  }

  /**
   * ScheduleHoursDialog: the original value, the selected cells and whether
   * local time is shown. The system's UTC offset is a parameter of each
   * operation that needs it.
   */
  class ScheduleHoursDialog {
    const kind: ScheduleType
    var originalValue: seq<byte>
    var selection: set<(int, int)>
    var isLocalTime: bool

    /** get_offset. */
    function Offset(utcOffset: int): int
      reads this
    {
      if isLocalTime then utcOffset else 0
    }

    constructor (value: seq<byte>, kind: ScheduleType, utcOffset: int)
      ensures this.kind == kind && isLocalTime
      ensures originalValue == if kind == SiteLink && |value| < SITE_LINK_SCHEDULE_TOTAL_SIZE then DefaultSiteSchedule() else value
      ensures GridOf(selection) == DecodedGrid(kind, originalValue, utcOffset)
    {
      this.kind := kind;
      isLocalTime := true;
      new;
      Load(value, utcOffset);
    }

    /**
     * load: a site link value shorter than 188 bytes (an empty one included)
     * is replaced by the default schedule; the selection becomes the decoded grid.
     */
    method Load(value: seq<byte>, utcOffset: int)
      modifies this
      ensures originalValue == if kind == SiteLink && |value| < SITE_LINK_SCHEDULE_TOTAL_SIZE then DefaultSiteSchedule() else value
      ensures selection == CellsOf(DecodedGrid(kind, originalValue, Offset(utcOffset)))
      ensures GridOf(selection) == DecodedGrid(kind, originalValue, Offset(utcOffset))
      ensures isLocalTime == old(isLocalTime)
    {
      if kind == SiteLink && |value| < SITE_LINK_SCHEDULE_TOTAL_SIZE {
        originalValue := SITE_LINK_SCHEDULE_HEADER + seq(SITE_LINK_SCHEDULE_DATA_SIZE, _ => SITE_LINK_SCHEDULE_ALLOWED);
      } else {
        originalValue := value;
      }
      var offset := if isLocalTime then utcOffset else 0;
      var g;
      if kind == SiteLink {
        g := SiteScheduleBytesToBools(Mid(originalValue, SITE_LINK_SCHEDULE_HEADER_SIZE, SITE_LINK_SCHEDULE_DATA_SIZE), offset);
      } else {
        g := LogonHoursToBools(originalValue, offset);
      }
      selection := CellsOf(g);
      GridOfCells(g);
    }

    /**
     * get: the original value when the selection still shows its grid;
     * otherwise the header and 168 hour bytes for a site link, or the 21-byte
     * bitmap for logon hours.
     */
    method Get(utcOffset: int) returns (value: seq<byte>)
      ensures value == ValueToWrite(kind, originalValue, GridOf(selection), Offset(utcOffset))
    {
      var g := GridOf(selection);
      var offset := if isLocalTime then utcOffset else 0;
      var originalGrid;
      if kind == SiteLink {
        originalGrid := SiteScheduleBytesToBools(Mid(originalValue, SITE_LINK_SCHEDULE_HEADER_SIZE, SITE_LINK_SCHEDULE_DATA_SIZE), offset);
      } else {
        originalGrid := LogonHoursToBools(originalValue, offset);
      }
      if g == originalGrid {
        return originalValue;
      }
      FlattenRows(g);
      if kind == SiteLink {
        var data := BoolsToSiteScheduleBytes(g, offset);
        value := SITE_LINK_SCHEDULE_HEADER + data;
      } else {
        value := LogonHoursToBytes(g, offset);
      }
    }

    /** on_local_time_button_toggled: read the value in the old mode, switch, and load it in the new mode. */
    method ToggleLocalTime(checked: bool, utcOffset: int)
      modifies this
      ensures isLocalTime == checked
      ensures var current := ValueToWrite(kind, old(originalValue), GridOf(old(selection)), old(Offset(utcOffset)));
              originalValue == (if kind == SiteLink && |current| < SITE_LINK_SCHEDULE_TOTAL_SIZE then DefaultSiteSchedule() else current)
              && GridOf(selection) == DecodedGrid(kind, originalValue, Offset(utcOffset))
    {
      var current := Get(utcOffset);
      isLocalTime := checked;
      Load(current, utcOffset);
    }
  }

  /**
   * Switching between local time and UTC and back, with no edit in between,
   * keeps the edited grid: the first switch writes a value that is kept as
   * loaded, the second switch writes that same value again (by get's first
   * branch, since the selection is still the decoded value), and loading it
   * in the first mode shows the grid the user had, which is what needs the
   * encoding round trip.
   */
  lemma ToggleThereAndBack(kind: ScheduleType, originalValue: seq<byte>, g: Grid, offset: int, otherOffset: int)
    requires IsGrid(g)
    requires kind == SiteLink ==> |originalValue| >= SITE_LINK_SCHEDULE_TOTAL_SIZE
    ensures var current := ValueToWrite(kind, originalValue, g, offset);
            && (kind == SiteLink ==> |current| >= SITE_LINK_SCHEDULE_TOTAL_SIZE)
            && ValueToWrite(kind, current, DecodedGrid(kind, current, otherOffset), otherOffset) == current
            && DecodedGrid(kind, current, offset) == g
  {
    EncodedValueDecodes(kind, g, offset);
  }

  /**
   * A changed logon-hours grid is written as 21 bytes that decode, in the
   * same mode, to that grid; a changed site link grid as the fixed header
   * followed by 168 bytes that do the same.
   */
  lemma EncodedValueDecodes(kind: ScheduleType, g: Grid, offset: int)
    requires IsGrid(g)
    ensures kind == UserLogon ==> |EncodedValue(kind, g, offset)| == LOGON_HOURS_SIZE
    ensures kind == SiteLink ==> |EncodedValue(kind, g, offset)| == SITE_LINK_SCHEDULE_TOTAL_SIZE
                                 && EncodedValue(kind, g, offset)[..SITE_LINK_SCHEDULE_HEADER_SIZE] == SITE_LINK_SCHEDULE_HEADER
    ensures DecodedGrid(kind, EncodedValue(kind, g, offset), offset) == g
  {
    if kind == SiteLink {
      SiteValueDecodes(g, offset);
    } else {
      LogonRoundTrip(g, offset);
    }
  }

  /** The site link case: the header followed by the site bytes decodes to the grid. */
  lemma SiteValueDecodes(g: Grid, offset: int)
    requires IsGrid(g)
    ensures var v := SITE_LINK_SCHEDULE_HEADER + SiteBytes(g, offset);
            |v| == SITE_LINK_SCHEDULE_TOTAL_SIZE && v[..SITE_LINK_SCHEDULE_HEADER_SIZE] == SITE_LINK_SCHEDULE_HEADER
            && SiteGrid(Mid(v, SITE_LINK_SCHEDULE_HEADER_SIZE, SITE_LINK_SCHEDULE_DATA_SIZE), offset) == g
  {
    SiteRoundTrip(g, offset);
    PayloadAfterHeader(SiteBytes(g, offset));
  }

  /** The payload read back from behind the header is the payload written there. */
  lemma PayloadAfterHeader(data: seq<byte>)
    requires |data| == SITE_LINK_SCHEDULE_DATA_SIZE
    ensures var v := SITE_LINK_SCHEDULE_HEADER + data;
            |v| == SITE_LINK_SCHEDULE_TOTAL_SIZE && v[..SITE_LINK_SCHEDULE_HEADER_SIZE] == SITE_LINK_SCHEDULE_HEADER
            && Mid(v, SITE_LINK_SCHEDULE_HEADER_SIZE, SITE_LINK_SCHEDULE_DATA_SIZE) == data
  {
    var v := SITE_LINK_SCHEDULE_HEADER + data;
    assert v[SITE_LINK_SCHEDULE_HEADER_SIZE..SITE_LINK_SCHEDULE_TOTAL_SIZE] == data;
  }
}
