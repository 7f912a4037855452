/**
 * The subnet prefix check of the subnet creation dialog: an address with a
 * prefix length is accepted only when every host bit of the address is zero,
 * that is when the address is the network address of its prefix (section
 * 3.1 of RFC 4632 for IPv4, section 2.3 of RFC 4291 for IPv6).
 */
module CreateSubnet {
  import opened QtText

  type byte = bv8

  /** A parsed IPv6 address: 16 bytes in network order. */
  type Ipv6Address = s: seq<byte> | |s| == 16 witness seq(16, _ => 0)

  // -------------------------------------------------------------------- IPv4

  /**
   * A shift amount 0..32 as a 32-bit value. validate_ipv4_prefix shifts by
   * the C int 32 - prefix; counting up to it keeps the amount in bit-vector
   * arithmetic.
   */
  function ShiftAmount(k: int): (h: bv32)
    requires 0 <= k <= 32
    ensures h as int == k
    ensures h <= 32
    decreases k
  {
    if k == 0 then 0 else ShiftAmount(k - 1) + 1
  }

  /**
   * validate_ipv4_prefix, on the address in host order (after ntohl, so the
   * first dotted octet is the most significant byte): a prefix outside 0..32
   * is refused, prefix 0 admits only address 0, prefix 32 every address,
   * and otherwise the address must keep its value under the mask of all
   * ones shifted left by 32 - prefix.
   */
  function ValidateIpv4Prefix(ip: bv32, prefix: int): (valid: bool)
  {
    if prefix < 0 || prefix > 32 then false
    else if prefix == 0 then ip == 0
    else if prefix == 32 then true
    else
      var mask: bv32 := 0xFFFF_FFFF << ShiftAmount(32 - prefix);
      ip & mask == ip
  }

  /** The host bits of a prefix of the given length: the 32 - prefix lowest bits. */
  function Ipv4HostMask(prefix: int): (m: bv32)
    requires 0 <= prefix <= 32
    ensures prefix == 0 ==> m == 0xFFFF_FFFF
    ensures prefix == 32 ==> m == 0
  {
    assert prefix == 0 ==> ShiftAmount(32 - prefix) == 32;
    assert prefix == 32 ==> ShiftAmount(32 - prefix) == 0;
    ((1 as bv32) << ShiftAmount(32 - prefix)) - 1
  }

  /** Keeping the value under the shifted-ones mask is having no low bit set. */
  lemma HighMaskKeeps(ip: bv32, h: bv32)
    requires h <= 32
    ensures ip & (0xFFFF_FFFF << h) == ip <==> ip & (((1 as bv32) << h) - 1) == 0
  {
    LowBitsComplement(h);
    KeptIffNoOtherBits(ip, 0xFFFF_FFFF << h);
  }

  /** The h lowest bits are the bits the shifted-ones mask clears. */
  lemma LowBitsComplement(h: bv32)
    requires h <= 32
    ensures ((1 as bv32) << h) - 1 == !(0xFFFF_FFFF << h)
  {
  }

  /** A value keeps itself under a mask exactly when it has no bit outside the mask. */
  lemma KeptIffNoOtherBits(ip: bv32, mask: bv32)
    ensures ip & mask == ip <==> ip & !mask == 0
  {
    if ip & mask == ip {
      KeptHasNoOtherBits(ip, mask);
    } else if ip & !mask == 0 {
      NoOtherBitsIsKept(ip, mask);
    }
  }

  lemma KeptHasNoOtherBits(ip: bv32, mask: bv32)
    requires ip & mask == ip
    ensures ip & !mask == 0
  {
  }

  lemma NoOtherBitsIsKept(ip: bv32, mask: bv32)
    requires ip & !mask == 0
    ensures ip & mask == ip
  {
  }

  /** An IPv4 address and prefix are accepted exactly when the prefix is 0..32 and the host bits of the address are zero. */
  lemma Ipv4ValidIffHostZero(ip: bv32, prefix: int)
    ensures ValidateIpv4Prefix(ip, prefix) <==> 0 <= prefix <= 32 && ip & Ipv4HostMask(prefix) == 0
  {
    if ValidateIpv4Prefix(ip, prefix) {
      Ipv4ValidHasZeroHost(ip, prefix);
    } else if 0 <= prefix <= 32 && ip & Ipv4HostMask(prefix) == 0 {
      Ipv4ZeroHostIsValid(ip, prefix);
    }
  }

  lemma Ipv4ValidHasZeroHost(ip: bv32, prefix: int)
    requires ValidateIpv4Prefix(ip, prefix)
    ensures 0 <= prefix <= 32 && ip & Ipv4HostMask(prefix) == 0
  {
    if 0 < prefix < 32 {
      MiddleMaskCheck(ip, prefix);
      HostMaskBits(prefix);
      HighMaskKeeps(ip, ShiftAmount(32 - prefix));
    }
  }

  lemma Ipv4ZeroHostIsValid(ip: bv32, prefix: int)
    requires 0 <= prefix <= 32 && ip & Ipv4HostMask(prefix) == 0
    ensures ValidateIpv4Prefix(ip, prefix)
  {
    if 0 < prefix < 32 {
      MiddleMaskCheck(ip, prefix);
      HostMaskBits(prefix);
      HighMaskKeeps(ip, ShiftAmount(32 - prefix));
    }
  }

  /** For prefixes 1..31 the check is the shifted-ones mask test. */
  lemma MiddleMaskCheck(ip: bv32, prefix: int)
    requires 0 < prefix < 32
    ensures ValidateIpv4Prefix(ip, prefix) == (ip & (0xFFFF_FFFF << ShiftAmount(32 - prefix)) == ip)
  {
    if ValidateIpv4Prefix(ip, prefix) {
      assert ip & (0xFFFF_FFFF << ShiftAmount(32 - prefix)) == ip;
    } else {
      assert ip & (0xFFFF_FFFF << ShiftAmount(32 - prefix)) != ip;
    }
  }

  lemma HostMaskBits(prefix: int)
    requires 0 <= prefix <= 32
    ensures Ipv4HostMask(prefix) == ((1 as bv32) << ShiftAmount(32 - prefix)) - 1
  {
  }

  /** The boundary prefixes: nothing outside 0..32, only 0.0.0.0/0, every /32. */
  lemma Ipv4Boundaries(ip: bv32, prefix: int)
    ensures prefix < 0 || prefix > 32 ==> !ValidateIpv4Prefix(ip, prefix)
    ensures ValidateIpv4Prefix(ip, 0) <==> ip == 0
    ensures ValidateIpv4Prefix(ip, 32)
  {
  }

  /** The host mask of a prefix one bit longer lies inside the host mask of the prefix. */
  lemma Ipv4HostMaskShrinks(prefix: int)
    requires 0 <= prefix < 32
    ensures Ipv4HostMask(prefix + 1) & Ipv4HostMask(prefix) == Ipv4HostMask(prefix + 1)
  {
    var h := ShiftAmount(32 - prefix);
    assert ShiftAmount(32 - (prefix + 1)) == h - 1;
    LowBitsNest(h);
  }

  lemma LowBitsNest(h: bv32)
    requires 0 < h <= 32
    ensures (((1 as bv32) << (h - 1)) - 1) & (((1 as bv32) << h) - 1) == ((1 as bv32) << (h - 1)) - 1
  {
  }

  /** A network address stays one when the prefix grows by one bit. */
  lemma Ipv4LongerPrefix(ip: bv32, prefix: int)
    requires 0 <= prefix < 32 && ValidateIpv4Prefix(ip, prefix)
    ensures ValidateIpv4Prefix(ip, prefix + 1)
  {
    Ipv4ValidHasZeroHost(ip, prefix);
    HostZeroLonger(ip, prefix);
    Ipv4ZeroHostIsValid(ip, prefix + 1);
  }

  /** Host bits that are zero under a prefix stay zero under the prefix one bit longer. */
  lemma HostZeroLonger(ip: bv32, prefix: int)
    requires 0 <= prefix < 32 && ip & Ipv4HostMask(prefix) == 0
    ensures ip & Ipv4HostMask(prefix + 1) == 0
  {
    Ipv4HostMaskShrinks(prefix);
    HostPartShrinks(ip, Ipv4HostMask(prefix), Ipv4HostMask(prefix + 1));
  }

  lemma HostPartShrinks(ip: bv32, a: bv32, b: bv32)
    requires b & a == b && ip & a == 0
    ensures ip & b == 0
  {
  }

  // -------------------------------------------------------------------- IPv6

  /**
   * The host bits of byte i of an IPv6 address under a prefix: none for a
   * byte inside the prefix, all for a byte after it, and the low
   * (8 - prefix % 8) bits for the byte the prefix ends in.
   */
  function HostMask(i: int, prefix: int): byte
  {
    if 8 * (i + 1) <= prefix then 0
    else if 8 * i >= prefix then 0xFF
    else LOW_BITS[8 - prefix % 8]
  }

  /** LOW_BITS[k] has the k lowest bits set. */
  const LOW_BITS: seq<byte> := [0x00, 0x01, 0x03, 0x07, 0x0F, 0x1F, 0x3F, 0x7F, 0xFF]

  /** The host mask validate_ipv6_prefix computes for a partial byte. */
  lemma PartialMask(r: int)
    requires 0 < r < 8
    ensures ((1 as byte) << (8 - r)) - 1 == LOW_BITS[8 - r]
  {
    if r == 1 {} else if r == 2 {} else if r == 3 {} else if r == 4 {}
    else if r == 5 {} else if r == 6 {} else {}
  }

  /** Every host bit of the address is zero. */
  predicate HostBitsZero(addr: Ipv6Address, prefix: int)
  {
    forall i :: 0 <= i < 16 ==> addr[i] & HostMask(i, prefix) == 0
  }

  /** The bytes from the given index on are zero. */
  predicate ZeroFrom(addr: Ipv6Address, start: int)
  {
    forall i :: start <= i < 16 && 0 <= i ==> addr[i] == 0
  }

  /**
   * validate_ipv6_prefix: a prefix outside 0..128 is refused, prefix 0 needs
   * all 16 bytes zero, prefix 128 admits every address; otherwise the bytes
   * after the one the prefix ends in must be zero and so must the host bits
   * of that byte.
   */
  method ValidateIpv6Prefix(addr: Ipv6Address, prefix: int) returns (valid: bool)
    ensures valid <==> 0 <= prefix <= 128 && HostBitsZero(addr, prefix)
  {
    if prefix < 0 || prefix > 128 {
      return false;
    }
    if prefix == 0 {
      for i := 0 to 16
        invariant forall k :: 0 <= k < i ==> addr[k] == 0
      {
        if addr[i] != 0 {
          assert addr[i] & HostMask(i, 0) != 0;
          return false;
        }
      }
      return true;
    }
    if prefix == 128 {
      return true;
    }
    var fullBytes := prefix / 8;
    var remainingBits := prefix % 8;
    var startCheck := fullBytes;
    if remainingBits > 0 {
      startCheck := startCheck + 1;
    }
    for i := startCheck to 16
      invariant forall k :: startCheck <= k < i ==> addr[k] == 0
    {
      if addr[i] != 0 {
        assert addr[i] & HostMask(i, prefix) != 0;
        return false;
      }
    }
    if remainingBits > 0 {
      var hostMask: byte := ((1 as byte) << (8 - remainingBits)) - 1;
      PartialMask(remainingBits);
      if addr[fullBytes] & hostMask != 0 {
        assert HostMask(fullBytes, prefix) == hostMask;
        return false;
      }
    }
    forall i | 0 <= i < 16
      ensures addr[i] & HostMask(i, prefix) == 0
    {
      if i >= startCheck {
        assert addr[i] == 0;
      } else if i < fullBytes {
        assert HostMask(i, prefix) == 0;
      }
    }
    return true;
  }

  /** The boundary prefixes: nothing outside 0..128, only the all-zero address for /0, every /128. */
  lemma Ipv6Boundaries(addr: Ipv6Address)
    ensures HostBitsZero(addr, 0) <==> forall i :: 0 <= i < 16 ==> addr[i] == 0
    ensures HostBitsZero(addr, 128)
  {
    if HostBitsZero(addr, 0) {
      forall i | 0 <= i < 16
        ensures addr[i] == 0
      {
        assert addr[i] & HostMask(i, 0) == 0;
      }
    }
  }

  /** A network address stays one when the prefix grows by one bit. */
  lemma Ipv6LongerPrefix(addr: Ipv6Address, prefix: int)
    requires 0 <= prefix < 128 && HostBitsZero(addr, prefix)
    ensures HostBitsZero(addr, prefix + 1)
  {
    forall i | 0 <= i < 16
      ensures addr[i] & HostMask(i, prefix + 1) == 0
    {
      assert addr[i] & HostMask(i, prefix) == 0;
      MaskShrinks(addr[i], i, prefix);
    }
  }

  /** Growing the prefix by one bit only removes host bits from a byte's mask. */
  lemma MaskShrinks(b: byte, i: int, prefix: int)
    requires 0 <= prefix < 128 && b & HostMask(i, prefix) == 0
    ensures b & HostMask(i, prefix + 1) == 0
  {
    if 8 * i < prefix + 1 < 8 * (i + 1) {
      var r := prefix % 8;
      assert (prefix + 1) % 8 == r + 1;
      if 8 * i < prefix {
        ShorterHostMask(b, 8 - r);
      } else {
        ShorterHostMask(b, 8);
      }
    }
  }

  lemma ShorterHostMask(b: byte, k: int)
    requires 0 < k <= 8 && b & LOW_BITS[k] == 0
    ensures b & LOW_BITS[k - 1] == 0
  {
    if k == 1 {} else if k == 2 {} else if k == 3 {} else if k == 4 {}
    else if k == 5 {} else if k == 6 {} else if k == 7 {} else {}
  }

  // ------------------------------------------------------------ the dialog

  datatype Option<T> = None | Some(value: T)

  /**
   * What the foreign parsers make of the two halves of the input: the IPv4
   * and IPv6 text parsers (inet_pton; the IPv4 address is given in host
   * order) and the prefix's integer conversion, which yields 0 for text that
   * is not a number.
   */
  datatype Parsed = Parsed(ipv4: Option<bv32>, ipv6: Option<Ipv6Address>, prefix: int)

  /**
   * The branch check_prefix_validity takes: input that does not split into
   * exactly two parts on '/' is refused; input containing a '.' is checked as
   * IPv4, any other as IPv6.
   */
  datatype Branch = Refused | Ipv4(address: string, prefix: string) | Ipv6(address: string, prefix: string)

  function BranchOf(input: string): (b: Branch)
    ensures b == Refused <==> |Split(input, '/')| != 2
    ensures b.Ipv4? <==> |Split(input, '/')| == 2 && '.' in input
    ensures b != Refused ==> b.address + "/" + b.prefix == input
  {
    var parts := Split(input, '/');
    if |parts| != 2 then Refused
    else
      SplitTwo(input);
      if '.' in input then Ipv4(parts[0], parts[1]) else Ipv6(parts[0], parts[1])
  }

  /** Two parts on '/' means exactly one '/', with the parts on either side of it. */
  lemma SplitTwo(input: string)
    requires |Split(input, '/')| == 2
    ensures Count(input, '/') == 1
    ensures Split(input, '/')[0] + "/" + Split(input, '/')[1] == input
  {
    SplitCount(input, '/');
    JoinSplit(input, '/');
    var parts := Split(input, '/');
    JoinCons(parts[0], parts[1..], '/');
    assert parts[1..] == [parts[1]];
  }

  /** The input is accepted when it takes a branch, its address parses, and the prefix check passes. */
  function Accepted(input: string, parsed: Parsed): bool
  {
    match BranchOf(input)
    case Refused => false
    case Ipv4(_, _) => parsed.ipv4.Some? && ValidateIpv4Prefix(parsed.ipv4.value, parsed.prefix)
    case Ipv6(_, _) => parsed.ipv6.Some? && 0 <= parsed.prefix <= 128 && HostBitsZero(parsed.ipv6.value, parsed.prefix)
  }

  /** An empty or non-numeric prefix counts as 0: "0.0.0.0/" is accepted, "10.0.0.0/" is not. */
  lemma NonNumericPrefixReadsAsZero(input: string, ip: bv32)
    requires BranchOf(input).Ipv4?
    ensures Accepted(input, Parsed(Some(ip), None, 0)) <==> ip == 0
  {
  }

  /** The dialog state the check changes: whether OK is enabled and the proposed object name. */
  class SubnetDialog {
    var okEnabled: bool
    var name: string

    constructor ()
      ensures !okEnabled && name == ""
    {
      okEnabled := false;
      name := "";
    }

    /**
     * check_prefix_validity: on any refusal OK is disabled and the name is
     * cleared; otherwise OK is enabled and the name is the input text.
     */
    method CheckPrefixValidity(input: string, parsed: Parsed)
      modifies this
      ensures okEnabled == Accepted(input, parsed)
      ensures name == if okEnabled then input else ""
    {
      var parts := Split(input, '/');
      if |parts| != 2 {
        okEnabled, name := false, "";
        return;
      }
      if '.' in input {
        if parsed.ipv4.None? || !ValidateIpv4Prefix(parsed.ipv4.value, parsed.prefix) {
          okEnabled, name := false, "";
          return;
        }
      } else {
        if parsed.ipv6.None? {
          okEnabled, name := false, "";
          return;
        }
        var valid := ValidateIpv6Prefix(parsed.ipv6.value, parsed.prefix);
        if !valid {
          okEnabled, name := false, "";
          return;
        }
      }
      okEnabled, name := true, input;
    }
  }
}
