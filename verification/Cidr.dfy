/** The net package's IPNet: an address and a prefix length (section 3.1 of RFC 4632), read from
    and printed as text, and the set of addresses it stands for. */
module Cidr {
  import opened Wrappers
  import opened IpText
  import Decimal

  /** A network: `ip` holds 4 or 16 bytes; the mask is the first `ones` bits. */
  datatype IPNet = IPNet(ip: seq<Byte>, ones: nat)

  /** A byte whose k leading bits are set. */
  function HighBits(k: nat): Byte {
    if k == 0 then 0 else if k == 1 then 0x80 else if k == 2 then 0xC0 else if k == 3 then 0xE0
    else if k == 4 then 0xF0 else if k == 5 then 0xF8 else if k == 6 then 0xFC else if k == 7 then 0xFE
    else 0xFF
  }

  /** Byte i of the mask with `ones` leading ones. */
  function MaskByte(ones: nat, i: nat): Byte {
    if ones < 8 * i then 0 else HighBits(ones - 8 * i)
  }

  /** CIDRMask: `length` bytes with `ones` leading ones. */
  function CIDRMask(ones: nat, length: nat): (m: seq<Byte>)
    ensures |m| == length
    ensures forall i :: 0 <= i < length ==> m[i] == MaskByte(ones, i)
  {
    seq(length, i requires 0 <= i < length => MaskByte(ones, i))
  }

  function And(x: seq<Byte>, m: seq<Byte>): (r: seq<Byte>)
    requires |x| == |m|
    ensures |r| == |x|
    ensures forall i :: 0 <= i < |x| ==> r[i] == x[i] & m[i]
  {
    seq(|x|, i requires 0 <= i < |x| => x[i] & m[i])
  }

  function Mask(n: IPNet): (m: seq<Byte>)
    ensures |m| == |n.ip|
  {
    CIDRMask(n.ones, |n.ip|)
  }

  /** What ParseCIDR returns: four or sixteen bytes, host bits cleared. */
  ghost predicate Valid(n: IPNet) {
    && (|n.ip| == 4 || |n.ip| == 16)
    && n.ones <= 8 * |n.ip|
    && n.ip == And(n.ip, Mask(n))
  }

  predicate IsV4(n: IPNet) {
    |n.ip| == 4
  }

  // ---------- Text ----------

  function IndexOf(s: string, c: char): (i: nat)
    ensures i <= |s|
    ensures i < |s| ==> s[i] == c
    ensures forall j :: 0 <= j < i ==> s[j] != c
  {
    if s == "" || s[0] == c then 0
    else
      var i := IndexOf(s[1..], c);
      assert forall j :: 0 < j <= i < |s| ==> s[j] == s[1..][j - 1];
      i + 1
  }

  /** The network that ParseCIDR returns, or None for its error. */
  function ParseCIDR(s: string): (r: Option<IPNet>)
    ensures r.Some? ==> Valid(r.value)
  {
    var i := IndexOf(s, '/');
    if i == |s| then None else
    var addr := if ParseIPv4(s[..i]).Some? then ParseIPv4(s[..i]) else ParseIPv6(s[..i]);
    var d := Decimal.Read(s[i + 1..]);
    if addr == None || !d.ok || d.used != |s| - i - 1 || d.value > 8 * |addr.value| then
      None
    else
      var mask := CIDRMask(d.value, |addr.value|);
      AndTwice(addr.value, mask);
      Some(IPNet(And(addr.value, mask), d.value))
  }

  lemma AndTwice(x: seq<Byte>, m: seq<Byte>)
    requires |x| == |m|
    ensures And(And(x, m), m) == And(x, m)
  {
  }

  /** The four-byte form of an address that has one (also the IPv4-mapped IPv6 ones). */
  function To4(ip: seq<Byte>): (r: Option<seq<Byte>>)
    ensures r.Some? ==> |r.value| == 4
  {
    if |ip| == 4 then Some(ip)
    else if |ip| == 16 && (forall i :: 0 <= i < 10 ==> ip[i] == 0) && ip[10] == 0xFF && ip[11] == 0xFF then
      Some(ip[12..])
    else None
  }

  function Short(ip: seq<Byte>): seq<Byte> {
    if To4(ip).Some? then To4(ip).value else ip
  }

  /** The address and mask that the IPNet operations work with: the four-byte ones if they exist. */
  function NetworkNumber(n: IPNet): IPNet {
    if |n.ip| == 16 && To4(n.ip).Some? then
      IPNet(n.ip[12..], if n.ones >= 96 then n.ones - 96 else 0)
    else n
  }

  /** IPNet.String. */
  function Text(n: IPNet): (s: string)
    requires |n.ip| == 4 || |n.ip| == 16
    ensures s != ""
  {
    var m := NetworkNumber(n);
    (if |m.ip| == 4 then FormatOctets(m.ip) else FormatIPv6(m.ip)) + "/" + Decimal.Format(m.ones)
  }

  lemma {:induction false} OctetsHaveNoSlash(b: seq<Byte>)
    requires 0 < |b|
    ensures '/' !in FormatOctets(b)
  {
    Decimal.FormatDigits(b[0] as nat);
    assert '/' !in Decimal.Format(b[0] as nat);
    if |b| > 1 {
      OctetsHaveNoSlash(b[1..]);
    }
  }

  lemma SlashInText(a: string, m: string)
    requires '/' !in a
    ensures var s := a + "/" + m;
            IndexOf(s, '/') == |a| && s[..|a|] == a && s[|a| + 1..] == m
  {
    var s := a + "/" + m;
    assert s[|a|] == '/';
    assert forall j :: 0 <= j < |a| ==> s[j] == a[j] && a[j] in a;
  }

  /** The text of an IPv4 address and a prefix length parses to the network they lie in. */
  lemma ParseAddressText(b: seq<Byte>, ones: nat)
    requires |b| == 4 && ones <= 32
    ensures ParseCIDR(FormatOctets(b) + "/" + Decimal.Format(ones)) == Some(IPNet(And(b, CIDRMask(ones, 4)), ones))
  {
    var a, m := FormatOctets(b), Decimal.Format(ones);
    OctetsHaveNoSlash(b);
    SlashInText(a, m);
    ParseFormatIPv4(b);
    Decimal.ReadFormat(ones, "");
    assert m + "" == m;
  }

  /** The text of an IPv6 address, in any of its written forms without a dot, and a prefix length parses to
      the IPv6 network they lie in. */
  lemma ParseIPv6Network(a: string, b: seq<Byte>, ones: nat)
    requires ParseIPv6(a) == Some(b) && '.' !in a && '/' !in a && ones <= 128
    ensures ParseCIDR(a + "/" + Decimal.Format(ones)) == Some(IPNet(And(b, CIDRMask(ones, 16)), ones))
  {
    hide ParseIPv6, ParseIPv4;
    var m := Decimal.Format(ones);
    SlashInText(a, m);
    NoDotNoIPv4(a);
    Decimal.ReadFormat(ones, "");
    assert m + "" == m;
  }

  /** Printing an IPv4 network and parsing the text gives the network back. */
  lemma ParseText(n: IPNet)
    requires Valid(n) && IsV4(n)
    ensures ParseCIDR(Text(n)) == Some(n)
  {
    hide ParseCIDR;
    ParseAddressText(n.ip, n.ones);
  }

  // ---------- Blocks ----------

  /** x and y agree on every bit of the mask. */
  predicate Agree(mask: seq<Byte>, x: seq<Byte>, y: seq<Byte>) {
    |x| == |y| == |mask| && forall i :: 0 <= i < |mask| ==> x[i] & mask[i] == y[i] & mask[i]
  }

  /** Address a lies in network n: it agrees with the network on every masked bit. */
  predicate Member(n: IPNet, a: seq<Byte>) {
    Agree(Mask(n), n.ip, a)
  }

  /** IPNet.Contains. */
  predicate Contains(n: IPNet, ip: seq<Byte>) {
    Member(NetworkNumber(n), Short(ip))
  }

  ghost predicate Subset(inner: IPNet, outer: IPNet) {
    forall a :: Member(inner, a) ==> Member(outer, a)
  }

  ghost predicate Overlap(m: IPNet, n: IPNet) {
    exists a :: Member(m, a) && Member(n, a)
  }

  function OrNot(x: seq<Byte>, m: seq<Byte>): (r: seq<Byte>)
    requires |x| == |m|
    ensures |r| == |x|
    ensures forall i :: 0 <= i < |x| ==> r[i] == x[i] | !m[i]
  {
    seq(|x|, i requires 0 <= i < |x| => x[i] | !m[i])
  }

  /** The highest address of the block: every bit outside the mask set. */
  function LastAddress(n: IPNet): (a: seq<Byte>)
    ensures |a| == |n.ip|
  {
    OrNot(n.ip, Mask(n))
  }

  lemma EndpointsAreMembers(n: IPNet)
    ensures Member(n, n.ip) && Member(n, LastAddress(n))
  {
  }

  /** A network that holds both ends of a block holds all of it. */
  lemma EndpointsSuffice(outer: IPNet, inner: IPNet)
    requires inner.ip == And(inner.ip, Mask(inner))
    requires Member(outer, inner.ip) && Member(outer, LastAddress(inner))
    ensures Subset(inner, outer)
  {
  }

  lemma MasksNest(p: nat, q: nat, length: nat)
    requires p <= q
    ensures forall i :: 0 <= i < length ==> CIDRMask(p, length)[i] & CIDRMask(q, length)[i] == CIDRMask(p, length)[i]
  {
  }

  lemma CoarserAgreement(less: seq<Byte>, more: seq<Byte>, x: seq<Byte>, y: seq<Byte>)
    requires |less| == |more| && forall i :: 0 <= i < |less| ==> less[i] & more[i] == less[i]
    requires Agree(more, x, y)
    ensures Agree(less, x, y)
  {
    assert forall i :: 0 <= i < |less| ==> x[i] & more[i] == y[i] & more[i];
  }

  /** Blocks are laminar: with a common address, the shorter prefix holds the longer one. */
  lemma Laminar(outer: IPNet, inner: IPNet, a: seq<Byte>)
    requires Member(outer, a) && Member(inner, a)
    requires outer.ones <= inner.ones
    ensures Subset(inner, outer)
  {
    hide CIDRMask, Agree;
    AgreeLengths(Mask(outer), outer.ip, a);
    AgreeLengths(Mask(inner), inner.ip, a);
    MasksNest(outer.ones, inner.ones, |a|);
    CoarserAgreement(Mask(outer), Mask(inner), inner.ip, a);
    forall b | Member(inner, b)
      ensures Member(outer, b)
    {
      CoarserAgreement(Mask(outer), Mask(inner), inner.ip, b);
      AgreeAround(Mask(outer), outer.ip, a, inner.ip, b);
    }
  }

  lemma AgreeLengths(m: seq<Byte>, x: seq<Byte>, y: seq<Byte>)
    requires Agree(m, x, y)
    ensures |m| == |x| == |y|
  {
  }

  lemma AgreeAround(m: seq<Byte>, o: seq<Byte>, a: seq<Byte>, i: seq<Byte>, b: seq<Byte>)
    requires Agree(m, o, a) && Agree(m, i, a) && Agree(m, i, b)
    ensures Agree(m, o, b)
  {
  }

  /** A block inside another has at least as long a prefix. */
  lemma SubsetPrefix(outer: IPNet, inner: IPNet)
    requires Valid(outer) && Valid(inner) && Subset(inner, outer)
    ensures |outer.ip| == |inner.ip| && outer.ones <= inner.ones
  {
    EndpointsAreMembers(inner);
    assert Member(outer, inner.ip) && Member(outer, LastAddress(inner));
    if inner.ones < outer.ones {
      LongerMaskSplits(outer.ones, outer.ip, inner.ones, inner.ip);
      assert false;
    }
  }

  /** A longer mask tells the two ends of a block apart. */
  lemma LongerMaskSplits(p: nat, o: seq<Byte>, q: nat, i: seq<Byte>)
    requires |i| == |o| && q < p <= 8 * |o| && i == And(i, CIDRMask(q, |i|))
    ensures !(Agree(CIDRMask(p, |o|), o, i) && Agree(CIDRMask(p, |o|), o, OrNot(i, CIDRMask(q, |i|))))
  {
    var k := q / 8;
    var qm, pm := CIDRMask(q, |i|), CIDRMask(p, |o|);
    LongerMaskByte(q - 8 * k, p - 8 * k);
    assert pm[k] & !qm[k] != 0;
    EndsDiffer(pm, o, qm, i, k);
  }

  lemma EndsDiffer(om: seq<Byte>, o: seq<Byte>, im: seq<Byte>, i: seq<Byte>, k: nat)
    requires |i| == |im| == |o| == |om| && i == And(i, im)
    requires k < |om| && om[k] & !im[k] != 0
    ensures !(Agree(om, o, i) && Agree(om, o, OrNot(i, im)))
  {
  }

  lemma LongerMaskByte(q: nat, p: nat)
    requires q < 8 && q < p
    ensures HighBits(p) & !HighBits(q) != 0
  {
  }

  /** Networks with the same addresses are the same network. */
  lemma SameBlock(m: IPNet, n: IPNet)
    requires Valid(m) && Valid(n) && Subset(m, n) && Subset(n, m)
    ensures m == n
  {
    SubsetPrefix(m, n);
    SubsetPrefix(n, m);
    EndpointsAreMembers(m);
    assert Member(n, m.ip);
    forall i | 0 <= i < |m.ip|
      ensures m.ip[i] == n.ip[i]
    {
      assert m.ip[i] == And(m.ip, Mask(m))[i] && n.ip[i] == And(n.ip, Mask(n))[i];
    }
    assert m.ip == n.ip;
  }
}
