/** Textual IP addresses, as the net package reads and prints them. */
module IpText {
  import opened Wrappers
  import Decimal

  type Byte = bv8

  // ---------- IPv4: four decimal octets ----------

  /** Reads `left` octets, each but the very first preceded by a dot, to the end of s. */
  function ParseOctets(s: string, left: nat): (r: Option<seq<Byte>>)
    requires left <= 4
    ensures r.Some? ==> |r.value| == left
  {
    if left == 0 then
      if s == "" then Some([]) else None
    else if s == "" || (left < 4 && s[0] != '.') then
      None
    else
      var t := if left < 4 then s[1..] else s;
      var d := Decimal.Read(t);
      if !d.ok || d.value > 255 || (d.used > 1 && t[0] == '0') then
        None
      else
        match ParseOctets(t[d.used..], left - 1)
        case None => None
        case Some(rest) => Some([d.value as Byte] + rest)
  }

  function ParseIPv4(s: string): (r: Option<seq<Byte>>)
    ensures r.Some? ==> |r.value| == 4
  {
    ParseOctets(s, 4)
  }

  function FormatOctets(b: seq<Byte>): string
    requires 0 < |b|
  {
    Decimal.Format(b[0] as nat) + (if |b| == 1 then "" else "." + FormatOctets(b[1..]))
  }

  lemma ByteValue(b: Byte)
    ensures (b as nat) as Byte == b
  {
  }

  /** A number up to 255 without a leading zero, read off the front of u, is the next octet. */
  lemma ParseNumber(u: string, left: nat, d: Decimal.Leading, more: seq<Byte>)
    requires 0 < left <= 4 && u != ""
    requires Decimal.Read(u) == d && d.ok && d.value <= 255 && (d.used > 1 ==> u[0] != '0')
    requires ParseOctets(u[d.used..], left - 1) == Some(more)
    ensures ParseOctets((if left < 4 then "." else "") + u, left) == Some([d.value as Byte] + more)
  {
    hide Decimal.Read;
    var t := (if left < 4 then "." else "") + u;
    assert (if left < 4 then t[1..] else t) == u;
  }

  /** Reading one printed octet leaves exactly the text after it. */
  lemma ParseOneOctet(b: Byte, rest: string, left: nat, more: seq<Byte>)
    requires 0 < left <= 4
    requires rest != [] ==> !Decimal.IsDigit(rest[0])
    requires ParseOctets(rest, left - 1) == Some(more)
    ensures ParseOctets((if left < 4 then "." else "") + (Decimal.Format(b as nat) + rest), left) == Some([b] + more)
  {
    hide Decimal.Format, Decimal.Read, ParseOctets, Decimal.IsDigit;
    var digits := Decimal.Format(b as nat);
    var u := digits + rest;
    Decimal.ReadFormat(b as nat, rest);
    Decimal.FormatDigits(b as nat);
    assert u[|digits|..] == rest && u[0] == digits[0];
    ParseNumber(u, left, Decimal.Read(u), more);
    ByteValue(b);
  }

  lemma {:induction false} ParseMoreOctets(b: seq<Byte>)
    requires 0 < |b| <= 3
    ensures ParseOctets("." + FormatOctets(b), |b|) == Some(b)
  {
    if |b| == 1 {
      ParseOneOctet(b[0], "", 1, []);
      assert Decimal.Format(b[0] as nat) + "" == FormatOctets(b);
      assert b == [b[0]] + [];
    } else {
      ParseMoreOctets(b[1..]);
      ParseOneOctet(b[0], "." + FormatOctets(b[1..]), |b|, b[1..]);
      assert b == [b[0]] + b[1..];
    }
  }

  /** The dotted quad of four octets reads back as those octets. */
  lemma ParseFormatIPv4(b: seq<Byte>)
    requires |b| == 4
    ensures ParseIPv4(FormatOctets(b)) == Some(b)
  {
    var rest := "." + FormatOctets(b[1..]);
    ParseMoreOctets(b[1..]);
    ParseOneOctet(b[0], rest, 4, b[1..]);
    assert b == [b[0]] + b[1..];
    assert "" + (Decimal.Format(b[0] as nat) + rest) == FormatOctets(b);
  }

  // ---------- IPv6: hexadecimal groups, one run of zeros abbreviated ----------

  function HexValue(c: char): Option<nat> {
    if '0' <= c <= '9' then Some((c - '0') as nat)
    else if 'a' <= c <= 'f' then Some((c - 'a') as nat + 10)
    else if 'A' <= c <= 'F' then Some((c - 'A') as nat + 10)
    else None
  }

  function ReadHex(s: string, i: nat, acc: nat): (r: Decimal.Leading)
    requires i <= |s|
    ensures r.ok ==> 0 < r.used <= |s|
    decreases |s| - i
  {
    if i < |s| && HexValue(s[i]).Some? then
      var acc' := acc * 16 + HexValue(s[i]).value;
      if acc' >= Decimal.BIG then Decimal.Leading(0, i, false) else ReadHex(s, i + 1, acc')
    else
      Decimal.Leading(acc, i, i != 0)
  }

  /** Reads the rest of an address whose first bytes are `done`; `gap` is where "::" stood. */
  function ParseGroups(s: string, done: seq<Byte>, gap: Option<nat>): (r: Option<seq<Byte>>)
    requires |done| < 16 && |done| % 2 == 0
    requires gap.Some? ==> gap.value <= |done|
    ensures r.Some? ==> |r.value| == 16
    decreases 16 - |done|
  {
    var h := ReadHex(s, 0, 0);
    if !h.ok || h.value > 0xFFFF then
      None
    else if h.used < |s| && s[h.used] == '.' then
      if (gap == None && |done| != 12) || |done| + 4 > 16 then None
      else
        match ParseIPv4(s)
        case None => None
        case Some(quad) => FillGap(done + quad, gap)
    else
      var done' := done + [(h.value / 256) as Byte, (h.value % 256) as Byte];
      var t := s[h.used..];
      if t == "" then FillGap(done', gap)
      else if t[0] != ':' || |t| == 1 then None
      else if t[1] != ':' then
        if |done'| < 16 then ParseGroups(t[1..], done', gap) else None
      else if gap.Some? then None
      else if |t| == 2 then FillGap(done', Some(|done'|))
      else if |done'| < 16 then ParseGroups(t[2..], done', Some(|done'|))
      else None
  }

  function Zeros(n: nat): (b: seq<Byte>)
    ensures |b| == n
  {
    seq(n, _ => 0)
  }

  function FillGap(done: seq<Byte>, gap: Option<nat>): (r: Option<seq<Byte>>)
    requires |done| <= 16
    requires gap.Some? ==> gap.value <= |done|
    ensures r.Some? ==> |r.value| == 16
  {
    if |done| == 16 then
      if gap.Some? then None else Some(done)
    else if gap.Some? then
      Some(done[..gap.value] + Zeros(16 - |done|) + done[gap.value..])
    else
      None
  }

  function ParseIPv6(s: string): (r: Option<seq<Byte>>)
    ensures r.Some? ==> |r.value| == 16
  {
    if |s| >= 2 && s[..2] == "::" then
      if |s| == 2 then Some(Zeros(16)) else ParseGroups(s[2..], [], Some(0))
    else
      ParseGroups(s, [], None)
  }

  function FormatHex(n: nat): string {
    var d := n % 16;
    var c := if d < 10 then Decimal.DigitChar(d) else 'a' + (d - 10) as char;
    if n < 16 then [c] else FormatHex(n / 16) + [c]
  }

  function Group(b: seq<Byte>, k: nat): nat
    requires |b| == 16 && k < 8
  {
    (b[2 * k] as nat) * 256 + b[2 * k + 1] as nat
  }

  function ZeroRun(b: seq<Byte>, k: nat): (n: nat)
    requires |b| == 16 && k <= 8
    ensures k + n <= 8
    decreases 8 - k
  {
    if k < 8 && Group(b, k) == 0 then 1 + ZeroRun(b, k + 1) else 0
  }

  /** Where the first of the longest runs of zero groups, at least two groups long, begins. */
  function GapStart(b: seq<Byte>, k: nat, best: nat, length: nat): (r: nat)
    requires |b| == 16 && k <= 8 && best <= 8
    ensures r <= 8
    decreases 8 - k
  {
    if k == 8 then
      if length >= 2 then best else 8
    else if ZeroRun(b, k) > length then
      GapStart(b, k + 1, k, ZeroRun(b, k))
    else
      GapStart(b, k + 1, best, length)
  }

  function FormatGroups(b: seq<Byte>, k: nat, gap: nat, colon: bool): string
    requires |b| == 16 && k <= 8
    decreases 8 - k
  {
    if k == 8 then ""
    else if k == gap && ZeroRun(b, k) > 0 then "::" + FormatGroups(b, k + ZeroRun(b, k), gap, false)
    else (if colon then ":" else "") + FormatHex(Group(b, k)) + FormatGroups(b, k + 1, gap, true)
  }

  function FormatIPv6(b: seq<Byte>): string
    requires |b| == 16
  {
    FormatGroups(b, 0, GapStart(b, 0, 8, 0), false)
  }

  // ---------- Written IPv6 addresses parse ----------

  predicate IsHex(c: char) {
    HexValue(c).Some?
  }

  lemma {:induction false} FormatHexDigits(n: nat)
    ensures FormatHex(n) != [] && forall i :: 0 <= i < |FormatHex(n)| ==> IsHex(FormatHex(n)[i])
  {
    if n >= 16 {
      FormatHexDigits(n / 16);
    }
  }

  lemma HexDigit(d: nat)
    requires d < 16
    ensures HexValue(if d < 10 then Decimal.DigitChar(d) else 'a' + (d - 10) as char) == Some(d)
  {
  }

  lemma {:induction false} ReadHexPasses(n: nat, rest: string)
    requires n < Decimal.BIG
    ensures ReadHex(FormatHex(n) + rest, 0, 0) == ReadHex(FormatHex(n) + rest, |FormatHex(n)|, n)
  {
    hide HexValue;
    var s := FormatHex(n) + rest;
    HexDigit(n % 16);
    if n < 16 {
      assert s[0] == FormatHex(n)[0];
    } else {
      var last := FormatHex(n)[|FormatHex(n)| - 1..];
      assert s == FormatHex(n / 16) + (last + rest);
      ReadHexPasses(n / 16, last + rest);
      var i := |FormatHex(n / 16)|;
      assert s[i] == last[0];
      assert (n / 16) * 16 + n % 16 == n;
    }
  }

  lemma ReadFormatHex(n: nat, rest: string)
    requires n < Decimal.BIG && (rest != [] ==> !IsHex(rest[0]))
    ensures ReadHex(FormatHex(n) + rest, 0, 0) == Decimal.Leading(n, |FormatHex(n)|, true)
  {
    hide HexValue;
    ReadHexPasses(n, rest);
    FormatHexDigits(n);
    var s, i := FormatHex(n) + rest, |FormatHex(n)|;
    assert i < |s| ==> s[i] == rest[0];
  }

  /** Groups of an address, as text and as bytes. */
  function Join(g: seq<nat>): (s: string)
    requires g != []
  {
    FormatHex(g[0]) + if |g| == 1 then "" else ":" + Join(g[1..])
  }

  predicate Groups(g: seq<nat>) {
    forall i :: 0 <= i < |g| ==> g[i] <= 0xFFFF
  }

  function Pair(n: nat): (b: seq<Byte>)
    requires n <= 0xFFFF
    ensures |b| == 2
  {
    [(n / 256) as Byte, (n % 256) as Byte]
  }

  function Bytes(g: seq<nat>): (b: seq<Byte>)
    requires Groups(g)
    ensures |b| == 2 * |g|
  {
    if g == [] then [] else Pair(g[0]) + Bytes(g[1..])
  }

  lemma JoinBegins(g: seq<nat>)
    requires g != []
    ensures Join(g) != [] && IsHex(Join(g)[0]) && Join(g)[0] != ':'
  {
    FormatHexDigits(g[0]);
  }

  /** One group, and what comes after it. */
  lemma ParseOneGroup(n: nat, t: string, done: seq<Byte>, gap: Option<nat>)
    requires n <= 0xFFFF && |done| < 16 && |done| % 2 == 0 && (gap.Some? ==> gap.value <= |done|)
    requires t == "" || t[0] == ':'
    ensures ParseGroups(FormatHex(n) + t, done, gap) ==
            var done' := done + Pair(n);
            if t == "" then FillGap(done', gap)
            else if |t| == 1 then None
            else if t[1] != ':' then if |done'| < 16 then ParseGroups(t[1..], done', gap) else None
            else if gap.Some? then None
            else if |t| == 2 then FillGap(done', Some(|done'|))
            else if |done'| < 16 then ParseGroups(t[2..], done', Some(|done'|))
            else None
  {
    hide ReadHex, FillGap;
    assert !IsHex(':');
    ReadFormatHex(n, t);
    var s := FormatHex(n) + t;
    assert s[|FormatHex(n)|..] == t;
  }

  lemma JoinOne(n: nat)
    ensures Join([n]) == FormatHex(n) + ""
  {
    hide FormatHex;
  }

  lemma JoinMore(g: seq<nat>, t: string)
    requires |g| > 1
    ensures Join(g) + t == FormatHex(g[0]) + (":" + (Join(g[1..]) + t))
  {
    hide FormatHex;
  }

  lemma BytesMore(done: seq<Byte>, g: seq<nat>)
    requires g != [] && Groups(g)
    ensures done + Bytes(g) == (done + Pair(g[0])) + Bytes(g[1..])
    ensures |g| == 1 ==> done + Bytes(g) == done + Pair(g[0])
  {
    hide Pair;
  }

  /** Groups to the end of the text. */
  lemma {:induction false} ParseToEnd(g: seq<nat>, done: seq<Byte>, gap: Option<nat>)
    requires g != [] && Groups(g) && |done| % 2 == 0 && |done| + 2 * |g| <= 16
    requires gap.Some? ==> gap.value <= |done|
    ensures ParseGroups(Join(g), done, gap) == FillGap(done + Bytes(g), gap)
    decreases |g|
  {
    hide ParseGroups, FillGap, FormatHex, HexValue, Pair, Join, Bytes;
    BytesMore(done, g);
    if |g| == 1 {
      JoinOne(g[0]);
      assert g == [g[0]];
      ParseOneGroup(g[0], "", done, gap);
    } else {
      var rest := g[1..];
      JoinBegins(rest);
      JoinMore(g, "");
      assert Join(g) + "" == Join(g) && Join(rest) + "" == Join(rest);
      var t := ":" + Join(rest);
      assert t[1..] == Join(rest) && t[1] == Join(rest)[0];
      ParseOneGroup(g[0], t, done, gap);
      ParseToEnd(rest, done + Pair(g[0]), gap);
    }
  }

  /** What follows a run of groups: the mark for zeros, and more groups, if any. */
  function AfterGap(more: seq<nat>): string {
    "::" + if more == [] then "" else Join(more)
  }

  lemma GapText(more: seq<nat>)
    ensures var t := AfterGap(more);
            && |t| >= 2 && t[0] == ':' && t[1] == ':'
            && (|t| == 2 <==> more == [])
            && (more != [] ==> t[2..] == Join(more))
  {
    hide Join, FormatHex, HexValue;
    if more != [] {
      JoinBegins(more);
    }
  }

  lemma GapEnds(n: nat, more: seq<nat>, done: seq<Byte>)
    requires n <= 0xFFFF && Groups(more) && |done| % 2 == 0 && |done| + 2 + 2 * |more| < 16
    ensures ParseGroups(FormatHex(n) + AfterGap(more), done, None) ==
            FillGap(done + Pair(n) + Bytes(more), Some(|done| + 2))
  {
    hide *;
    GapText(more);
    ParseOneGroup(n, AfterGap(more), done, None);
    if more == [] {
      NoBytes();
      NothingAfter(done + Pair(n));
    } else {
      ParseToEnd(more, done + Pair(n), Some(|done| + 2));
    }
  }

  /** Groups, the mark for zeros, and more groups. */
  lemma {:induction false} ParseToGap(g: seq<nat>, more: seq<nat>, done: seq<Byte>)
    requires g != [] && Groups(g) && Groups(more) && |done| % 2 == 0 && |done| + 2 * |g| + 2 * |more| < 16
    ensures ParseGroups(Join(g) + AfterGap(more), done, None) ==
            FillGap(done + Bytes(g) + Bytes(more), Some(|done| + 2 * |g|))
    decreases |g|
  {
    hide ParseGroups, FillGap, FormatHex, HexValue, Pair, Join, Bytes, AfterGap;
    BytesMore(done, g);
    var tail := AfterGap(more);
    if |g| == 1 {
      JoinOne(g[0]);
      assert g == [g[0]] && Join(g) + tail == FormatHex(g[0]) + tail;
      GapEnds(g[0], more, done);
    } else {
      var rest := g[1..];
      JoinBegins(rest);
      JoinMore(g, tail);
      var t := ":" + (Join(rest) + tail);
      assert t[1..] == Join(rest) + tail && t[1] == Join(rest)[0];
      ParseOneGroup(g[0], t, done, None);
      ParseToGap(rest, more, done + Pair(g[0]));
    }
  }

  /** An address written in full parses to its bytes. */
  lemma ParseFullIPv6(g: seq<nat>)
    requires |g| == 8 && Groups(g)
    ensures ParseIPv6(Join(g)) == Some(Bytes(g))
  {
    hide ParseGroups, FormatHex, HexValue, Join, Bytes;
    JoinBegins(g);
    NotGapFirst(Join(g));
    ParseToEnd(g, [], None);
    assert [] + Bytes(g) == Bytes(g);
  }

  lemma NotGapFirst(s: string)
    requires s != "" && s[0] != ':'
    ensures |s| >= 2 ==> s[..2] != "::"
  {
    assert |s| >= 2 ==> s[..2][0] == s[0];
  }

  /** So does one whose first zeros are left out. */
  lemma ParseGapFirst(more: seq<nat>)
    requires Groups(more) && |more| < 8
    ensures ParseIPv6(AfterGap(more)) == Some(Zeros(16 - 2 * |more|) + Bytes(more))
  {
    hide *;
    BytesLengths(more, more);
    GapFirstParse(more);
    if more == [] {
      NoBytes();
      NothingAfter(Zeros(16));
    } else {
      ParseToEnd(more, [], Some(0));
      NothingAfter(Bytes(more));
      FillFirst(Bytes(more));
    }
  }

  lemma GapFirstParse(more: seq<nat>)
    ensures ParseIPv6(AfterGap(more)) == if more == [] then Some(Zeros(16)) else ParseGroups(Join(more), [], Some(0))
  {
    hide ParseGroups, Join, Zeros, FormatHex, HexValue;
    var s := AfterGap(more);
    assert s[..2] == "::" && s[2..] == if more == [] then "" else Join(more);
    if more != [] {
      JoinBegins(more);
    }
  }

  lemma NothingAfter(x: seq<Byte>)
    ensures x + [] == x && [] + x == x
  {
  }

  lemma NoBytes()
    ensures Bytes([]) == []
  {
  }

  lemma FillFirst(b: seq<Byte>)
    requires |b| < 16
    ensures FillGap(b, Some(0)) == Some(Zeros(16 - |b|) + b)
  {
    hide Zeros;
    assert b[..0] == [] && b[0..] == b;
    assert [] + Zeros(16 - |b|) == Zeros(16 - |b|);
  }

  lemma FillBetween(x: seq<Byte>, y: seq<Byte>)
    requires |x| + |y| < 16
    ensures FillGap(x + y, Some(|x|)) == Some(x + Zeros(16 - |x| - |y|) + y)
  {
    hide Zeros;
    assert (x + y)[..|x|] == x && (x + y)[|x|..] == y;
  }

  /** And one whose zeros are left out after some groups. */
  lemma ParseGapLater(g: seq<nat>, more: seq<nat>)
    requires g != [] && Groups(g) && Groups(more) && |g| + |more| < 8
    ensures ParseIPv6(Join(g) + AfterGap(more)) ==
            Some(Bytes(g) + Zeros(16 - 2 * |g| - 2 * |more|) + Bytes(more))
  {
    hide *;
    JoinBegins(g);
    BytesLengths(g, more);
    FirstStays(Join(g), AfterGap(more));
    NotGapFirst(Join(g) + AfterGap(more));
    NoGapFirstParse(Join(g) + AfterGap(more));
    ParseToGap(g, more, []);
    NothingBefore(Bytes(g), Bytes(more));
    FillBetween(Bytes(g), Bytes(more));
  }

  lemma BytesLengths(g: seq<nat>, more: seq<nat>)
    requires Groups(g) && Groups(more)
    ensures |Bytes(g)| == 2 * |g| && |Bytes(more)| == 2 * |more|
  {
  }

  lemma FirstStays(s: string, t: string)
    requires s != ""
    ensures s + t != "" && (s + t)[0] == s[0]
  {
  }

  lemma NothingBefore(x: seq<Byte>, y: seq<Byte>)
    ensures [] + x + y == x + y
  {
    assert [] + x == x;
  }

  lemma NoGapFirstParse(s: string)
    requires |s| >= 2 ==> s[..2] != "::"
    ensures ParseIPv6(s) == ParseGroups(s, [], None)
  {
    hide ParseGroups;
  }

  lemma NoDotNoOctets(s: string)
    requires '.' !in s
    ensures ParseOctets(s, 3) == None
  {
  }

  /** Text without a dot is no IPv4 address. */
  lemma NoDotNoIPv4(s: string)
    requires '.' !in s
    ensures ParseIPv4(s) == None
  {
    if s != "" {
      var d := Decimal.Read(s);
      if d.ok {
        assert forall i :: 0 <= i < |s[d.used..]| ==> s[d.used..][i] == s[d.used + i];
        NoDotNoOctets(s[d.used..]);
      }
    }
  }

  lemma {:induction false} JoinHasNo(g: seq<nat>, c: char)
    requires g != [] && !IsHex(c) && c != ':'
    ensures c !in Join(g)
  {
    hide HexValue;
    FormatHexDigits(g[0]);
    if |g| > 1 {
      JoinHasNo(g[1..], c);
    }
  }
}
