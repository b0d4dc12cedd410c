/** Octets, text and JSON forms of the IPv4 types of pkg/util/ip/ipnet.go. */
module IpnetText {
  import opened Wrappers
  import opened IpText
  import opened Ipnet
  import Cidr
  import Decimal

  function Octets(ip: IP4): (b: seq<Byte>)
    ensures |b| == 4
  {
    [((ip >> 24) & 0xFF) as Byte, ((ip >> 16) & 0xFF) as Byte, ((ip >> 8) & 0xFF) as Byte, (ip & 0xFF) as Byte]
  }

  /** FromBytes reads the first four bytes; fewer make it panic. */
  function FromBytes(b: seq<Byte>): IP4
    requires |b| >= 4
  {
    (b[3] as bv32) | ((b[2] as bv32) << 8) | ((b[1] as bv32) << 16) | ((b[0] as bv32) << 24)
  }

  /** What a decoding function does: return a value, return an error, or panic. */
  datatype Decoded<T> = Value(value: T) | Invalid | Panics

  /** FromIP panics on an address without a four-byte form. */
  function FromIP(ip: seq<Byte>): Decoded<IP4> {
    match Cidr.To4(ip)
    case Some(b) => Value(FromBytes(b))
    case None => Panics
  }

  /** net.ParseIP: the first dot or colon decides the family. */
  function ParseIP(s: string, i: nat): Option<seq<Byte>>
    requires i <= |s|
    decreases |s| - i
  {
    if i == |s| then None
    else if s[i] == '.' then ParseIPv4(s)
    else if s[i] == ':' then ParseIPv6(s)
    else ParseIP(s, i + 1)
  }

  function ParseIP4(s: string): Decoded<IP4> {
    match ParseIP(s, 0)
    case None => Invalid
    case Some(ip) => FromIP(ip)
  }

  function String(ip: IP4): string {
    FormatOctets(Octets(ip))
  }

  function NetString(n: IP4Net): string {
    String(n.ip) + "/" + Decimal.Format(n.prefixLen)
  }

  function FromIPNet(n: Cidr.IPNet): Decoded<IP4Net>
    requires n.ones <= 128
  {
    match FromIP(n.ip)
    case Value(ip) => Value(IP4Net(ip, n.ones))
    case Invalid => Invalid
    case Panics => Panics
  }

  // ---------- JSON ----------

  function Quoted(s: string): string {
    "\"" + s + "\""
  }

  /** bytes.Trim of quotes, at both ends. */
  function Trim(s: string): string {
    if s == "" then ""
    else if s[0] == '"' then Trim(s[1..])
    else if s[|s| - 1] == '"' then Trim(s[..|s| - 1])
    else s
  }

  function DecodeIP4(j: string): Decoded<IP4> {
    ParseIP4(Trim(j))
  }

  function DecodeIP4Net(j: string): Decoded<IP4Net> {
    match Cidr.ParseCIDR(Trim(j))
    case None => Invalid
    case Some(n) => FromIPNet(n)
  }

  /** A variable of type IP4, the receiver of UnmarshalJSON. */
  class IP4Variable {
    var value: IP4

    /** Assigns the decoded value through the receiver, or leaves it as it was. */
    method UnmarshalJSON(j: string) returns (r: Decoded<IP4>)
      modifies this
      ensures r == DecodeIP4(j)
      ensures value == if r.Value? then r.value else old(value)
    {
      r := ParseIP4(Trim(j));
      if r.Value? {
        value := r.value;
      }
    }
  }

  /** A variable of type IP4Net, the receiver of UnmarshalJSON. */
  class IP4NetVariable {
    var value: IP4Net

    constructor (n: IP4Net)
      ensures value == n
    {
      value := n;
    }

    method UnmarshalJSON(j: string) returns (r: Decoded<IP4Net>)
      modifies this
      ensures r == DecodeIP4Net(j)
      ensures value == if r.Value? then r.value else old(value)
    {
      var val := Cidr.ParseCIDR(Trim(j));
      if val == None {
        return Invalid;
      }
      r := FromIPNet(val.value);
      if r.Value? {
        value := r.value;
      }
    }
  }

  // ---------- Round trips ----------

  lemma FromBytesOctets(ip: IP4)
    ensures FromBytes(Octets(ip)) == ip
  {
  }

  lemma OctetsFromBytes(b: seq<Byte>)
    requires |b| == 4
    ensures Octets(FromBytes(b)) == b
  {
  }

  lemma {:induction false} NoQuotes(s: string)
    requires '"' !in s
    ensures Trim(Quoted(s)) == s && Trim(s) == s
  {
    var t := s + "\"";
    if s == "" {
      assert t[1..] == "";
    } else {
      assert s[0] in s && s[|s| - 1] in s;
      assert Trim(s) == s;
      assert t[0] == s[0] && t[|s|] == '"' && t[..|s|] == s;
    }
    assert Trim(t) == s;
    assert Quoted(s)[1..] == t;
  }

  lemma {:induction false} OctetsText(b: seq<Byte>, rest: string)
    requires 0 < |b| && '"' !in rest
    ensures '"' !in FormatOctets(b) + rest
  {
    Decimal.FormatDigits(b[0] as nat);
    if |b| > 1 {
      OctetsText(b[1..], rest);
    }
  }

  /** The first separator in a dotted quad is a dot. */
  lemma {:induction false} FirstDot(digits: string, rest: string, i: nat)
    requires i <= |digits| && forall k :: 0 <= k < |digits| ==> Decimal.IsDigit(digits[k])
    ensures ParseIP(digits + "." + rest, i) == ParseIPv4(digits + "." + rest)
    decreases |digits| - i
  {
    if i < |digits| {
      FirstDot(digits, rest, i + 1);
    }
  }

  /** Parsing the text of an address gives it back. */
  lemma ParseString(ip: IP4)
    ensures ParseIP4(String(ip)) == Value(ip)
  {
    hide FromBytes, Octets;
    var b := Octets(ip);
    var digits, rest := Decimal.Format(b[0] as nat), FormatOctets(b[1..]);
    Decimal.FormatDigits(b[0] as nat);
    FirstDot(digits, rest, 0);
    assert String(ip) == digits + "." + rest;
    ParseFormatIPv4(b);
    FromBytesOctets(ip);
  }

  lemma JSONRoundTrip(ip: IP4)
    ensures DecodeIP4(Quoted(String(ip))) == Value(ip)
  {
    hide ParseIP4, FormatOctets;
    OctetsText(Octets(ip), "");
    assert String(ip) + "" == String(ip);
    NoQuotes(String(ip));
    ParseString(ip);
  }

  // The mask of a network, octet by octet.

  lemma MaskOctets(p: nat)
    requires p <= 32
    ensures Octets(Shl(ONES, 32 - p)) == Cidr.CIDRMask(p, 4)
  {
    hide Octets, Shl, Shift;
    ShlIsShift(ONES, 32 - p);
    if p < 8 {
      MaskOctetsBelow8(p);
    } else if p < 16 {
      MaskOctetsBelow16(p);
    } else if p < 24 {
      MaskOctetsBelow24(p);
    } else {
      MaskOctetsTo32(p);
    }
  }

  lemma MaskOctetsBelow8(p: nat)
    requires p < 8
    ensures Octets(Shift(ONES, 32 - p)) == Cidr.CIDRMask(p, 4)
  {
    if p < 2 {} else if p < 4 {} else if p < 6 {} else {}
  }

  lemma MaskOctetsBelow16(p: nat)
    requires 8 <= p < 16
    ensures Octets(Shift(ONES, 32 - p)) == Cidr.CIDRMask(p, 4)
  {
    if p < 10 {} else if p < 12 {} else if p < 14 {} else {}
  }

  lemma MaskOctetsBelow24(p: nat)
    requires 16 <= p < 24
    ensures Octets(Shift(ONES, 32 - p)) == Cidr.CIDRMask(p, 4)
  {
    if p < 18 {} else if p < 20 {} else if p < 22 {} else {}
  }

  lemma MaskOctetsTo32(p: nat)
    requires 24 <= p <= 32
    ensures Octets(Shift(ONES, 32 - p)) == Cidr.CIDRMask(p, 4)
  {
    if p < 26 {} else if p < 28 {} else if p < 30 {} else {}
  }

  lemma MeetOctets(x: bv32, m: bv32)
    ensures Octets(Meet(x, m)) == Cidr.And(Octets(x), Octets(m))
  {
    hide Octets, Meet;
    HighOctets(x, m);
    LowOctets(x, m);
  }

  lemma HighOctets(x: bv32, m: bv32)
    ensures Octets(Meet(x, m))[0] == Octets(x)[0] & Octets(m)[0]
    ensures Octets(Meet(x, m))[1] == Octets(x)[1] & Octets(m)[1]
  {
  }

  lemma LowOctets(x: bv32, m: bv32)
    ensures Octets(Meet(x, m))[2] == Octets(x)[2] & Octets(m)[2]
    ensures Octets(Meet(x, m))[3] == Octets(x)[3] & Octets(m)[3]
  {
  }

  /** Decoding the JSON form of a network yields its Network. */
  lemma NetJSONRoundTrip(n: IP4Net)
    requires n.prefixLen <= 32
    ensures DecodeIP4Net(Quoted(NetString(n))) == Value(Network(n))
  {
    hide Octets, FromBytes, Shl, Meet, FormatOctets, Cidr.ParseCIDR, Trim, Cidr.CIDRMask, Cidr.And;
    Decimal.FormatDigits(n.prefixLen);
    var tail := "/" + Decimal.Format(n.prefixLen);
    OctetsText(Octets(n.ip), tail);
    assert NetString(n) == FormatOctets(Octets(n.ip)) + tail;
    NoQuotes(NetString(n));
    Cidr.ParseAddressText(Octets(n.ip), n.prefixLen);
    MaskOctets(n.prefixLen);
    MeetOctets(n.ip, Mask(n));
    FromBytesOctets(Network(n).ip);
  }

  /** The word arithmetic and the byte arithmetic agree on which addresses a network holds. */
  lemma ContainsIsMember(n: IP4Net, a: IP4)
    requires n.prefixLen <= 32
    ensures Contains(n, a) <==> Cidr.Member(Cidr.IPNet(Octets(n.ip), n.prefixLen), Octets(a))
  {
    hide Octets, Shl, Meet, Cidr.CIDRMask;
    var m := Mask(n);
    MaskOctets(n.prefixLen);
    MeetOctets(n.ip, m);
    MeetOctets(a, m);
    if Octets(Meet(n.ip, m)) == Octets(Meet(a, m)) {
      FromBytesOctets(Meet(n.ip, m));
      FromBytesOctets(Meet(a, m));
    }
    AgreeByAnd(Octets(m), Octets(n.ip), Octets(a));
  }

  lemma AgreeByAnd(m: seq<Byte>, x: seq<Byte>, y: seq<Byte>)
    requires |m| == |x| == |y|
    ensures Cidr.Agree(m, x, y) <==> Cidr.And(x, m) == Cidr.And(y, m)
  {
    if Cidr.And(x, m) == Cidr.And(y, m) {
      assert forall i :: 0 <= i < |m| ==> Cidr.And(x, m)[i] == Cidr.And(y, m)[i];
    }
  }
}
