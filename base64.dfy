/**
 * `atob`, the browser's forgiving-base64 decoder (WHATWG Infra, "forgiving-base64
 * decode"), which turns the speech service's base64 audio into a binary string,
 * and the canonical padded encoder it inverts.
 */
module Base64 {
  import opened Common

  /** ASCII whitespace, which `atob` ignores wherever it appears. */
  predicate IsAsciiSpace(c: char) {
    c == '\t' || c == '\n' || c == '\U{C}' || c == '\r' || c == ' '
  }

  function StripSpace(s: string): (r: string)
    ensures |r| <= |s|
    ensures forall i :: 0 <= i < |r| ==> !IsAsciiSpace(r[i])
  {
    if s == [] then []
    else if IsAsciiSpace(s[0]) then StripSpace(s[1..])
    else [s[0]] + StripSpace(s[1..])
  }

  /** When the length is a multiple of four, one or two trailing `=` are dropped. */
  function StripPadding(s: string): (r: string)
    ensures r <= s && |s| - 2 <= |r|
    ensures |r| < |s| ==> |s| % 4 == 0 && forall i :: |r| <= i < |s| ==> s[i] == '='
  {
    if |s| % 4 == 0 && 2 <= |s| && s[|s| - 2] == '=' && s[|s| - 1] == '=' then s[..|s| - 2]
    else if |s| % 4 == 0 && 1 <= |s| && s[|s| - 1] == '=' then s[..|s| - 1]
    else s
  }

  /** The base64 alphabet. */
  function Alphabet(x: nat): (c: char)
    requires x < 64
    ensures c != '=' && !IsAsciiSpace(c)
  {
    if x < 26 then ('A' as int + x) as char
    else if x < 52 then ('a' as int + x - 26) as char
    else if x < 62 then ('0' as int + x - 52) as char
    else if x == 62 then '+'
    else '/'
  }

  function SextetOf(c: char): (r: Option<nat>)
    ensures r.Some? ==> r.value < 64 && Alphabet(r.value) == c
  {
    if 'A' <= c <= 'Z' then Some(c as int - 'A' as int)
    else if 'a' <= c <= 'z' then Some(c as int - 'a' as int + 26)
    else if '0' <= c <= '9' then Some(c as int - '0' as int + 52)
    else if c == '+' then Some(62)
    else if c == '/' then Some(63)
    else None
  }

  /** The six-bit values of `s`, or None when a character is outside the alphabet. */
  function Sextets(s: string): (r: Option<seq<nat>>)
    ensures r.Some? ==> |r.value| == |s| && forall i :: 0 <= i < |s| ==> r.value[i] < 64
    ensures r.None? <==> exists i :: 0 <= i < |s| && SextetOf(s[i]).None?
  {
    if s == [] then Some([])
    else match SextetOf(s[0])
      case None => None
      case Some(x) =>
        match Sextets(s[1..])
        case None => (var i :| 0 <= i < |s[1..]| && SextetOf(s[1..][i]).None?; assert s[i + 1] == s[1..][i]; None)
        case Some(xs) => Some([x] + xs)
  }

  /** Four sextets make three bytes. */
  function Bytes3(x0: nat, x1: nat, x2: nat, x3: nat): (bs: seq<byte>)
    requires x0 < 64 && x1 < 64 && x2 < 64 && x3 < 64
    ensures |bs| == 3
  {
    var n := x0 * 262144 + x1 * 4096 + x2 * 64 + x3;
    assert n < 0x100_0000;
    [n / 65536, (n / 256) % 256, n % 256]
  }

  /** Three bytes make four sextets. */
  function Sextets4(b0: byte, b1: byte, b2: byte): (xs: seq<nat>)
    ensures |xs| == 4 && forall i :: 0 <= i < 4 ==> xs[i] < 64
  {
    var n := b0 as int * 65536 + b1 as int * 256 + b2 as int;
    [n / 262144, (n / 4096) % 64, (n / 64) % 64, n % 64]
  }

  /** Packs groups of four sextets into three bytes; a final group of two or three yields one or two bytes. */
  function Pack(xs: seq<nat>): (bs: seq<byte>)
    requires forall i :: 0 <= i < |xs| ==> xs[i] < 64
    requires |xs| % 4 != 1
    ensures |bs| == (3 * |xs|) / 4
  {
    if |xs| >= 4 then Bytes3(xs[0], xs[1], xs[2], xs[3]) + Pack(xs[4..])
    else if |xs| == 3 then Bytes2(xs[0], xs[1], xs[2])
    else if |xs| == 2 then Bytes1(xs[0], xs[1])
    else []
  }

  /** A final group of three sextets makes two bytes; its last two bits are dropped. */
  function Bytes2(x0: nat, x1: nat, x2: nat): (bs: seq<byte>)
    requires x0 < 64 && x1 < 64 && x2 < 64
    ensures |bs| == 2
  {
    var n := x0 * 4096 + x1 * 64 + x2;
    assert n < 0x4_0000;
    [n / 1024, (n / 4) % 256]
  }

  /** A final group of two sextets makes one byte; its last four bits are dropped. */
  function Bytes1(x0: nat, x1: nat): (bs: seq<byte>)
    requires x0 < 64 && x1 < 64
    ensures |bs| == 1
  {
    var n := x0 * 64 + x1;
    assert n < 0x1000;
    [n / 16]
  }

  /** A binary string: one character per byte, as `atob` returns it. */
  function BinaryString(bs: seq<byte>): (r: string)
    ensures |r| == |bs| && forall i :: 0 <= i < |bs| ==> r[i] as int == bs[i]
  {
    if bs == [] then [] else [bs[0] as char] + BinaryString(bs[1..])
  }

  /** `atob`: None stands for the InvalidCharacterError it throws. */
  function Atob(s: string): (r: Option<string>)
    ensures r.Some? ==> forall i :: 0 <= i < |r.value| ==> r.value[i] as int < 256
  {
    var t := StripPadding(StripSpace(s));
    if |t| % 4 == 1 then None
    else match Sextets(t)
      case None => None
      case Some(xs) => Some(BinaryString(Pack(xs)))
  }

  /** The number of sextets a final group of `r` bytes needs: none, two or three. */
  function Tail(r: nat): nat {
    if r == 0 then 0 else r + 1
  }

  lemma DropGroup(n: nat)
    requires n >= 3
    ensures (n - 3) / 3 == n / 3 - 1 && (n - 3) % 3 == n % 3
  {
  }

  /** The canonical sextets of a byte sequence, before padding. */
  function Split(bs: seq<byte>): (xs: seq<nat>)
    ensures forall i :: 0 <= i < |xs| ==> xs[i] < 64
    ensures |xs| == 4 * (|bs| / 3) + Tail(|bs| % 3)
  {
    if |bs| >= 3 then
      DropGroup(|bs|);
      Sextets4(bs[0], bs[1], bs[2]) + Split(bs[3..])
    else if |bs| == 2 then
      var n := (bs[0] as int * 256 + bs[1] as int) * 4;
      [n / 4096, (n / 64) % 64, n % 64]
    else if |bs| == 1 then
      var n := bs[0] as int * 16;
      [n / 64, n % 64]
    else []
  }

  function Spell(xs: seq<nat>): (s: string)
    requires forall i :: 0 <= i < |xs| ==> xs[i] < 64
    ensures |s| == |xs|
    ensures forall i :: 0 <= i < |s| ==> s[i] == Alphabet(xs[i])
  {
    if xs == [] then [] else [Alphabet(xs[0])] + Spell(xs[1..])
  }

  /** The `=` padding that completes the last group to four characters. */
  function Padding(bs: seq<byte>): string {
    if |bs| % 3 == 1 then "==" else if |bs| % 3 == 2 then "=" else ""
  }

  /** Padded base64, as the speech service sends audio bytes. */
  function Btoa(bs: seq<byte>): (s: string)
    ensures |s| == 4 * ((|bs| + 2) / 3)
  {
    GroupCount(|bs|);
    Spell(Split(bs)) + Padding(bs)
  }

  /** The digits and the padding of `n` bytes fill whole groups of four. */
  lemma GroupCount(n: nat)
    ensures 4 * (n / 3) + Tail(n % 3) + [0, 2, 1][n % 3] == 4 * ((n + 2) / 3)
  {
    GroupsOf(n);
  }

  /** How many digits and characters of base64 `n` bytes take, modulo four. */
  lemma GroupRemainders(n: nat)
    ensures (4 * (n / 3) + Tail(n % 3)) % 4 == Tail(n % 3)
    ensures (4 * ((n + 2) / 3)) % 4 == 0
  {
    var q, r := n / 3, n % 3;
    GroupsOf(n);
    FourTimesMod(q, Tail(r));
    FourTimesMod((n + 2) / 3, 0);
  }

  /** The number of groups of three, counting a partial last group. */
  lemma GroupsOf(n: nat)
    ensures (n + 2) / 3 == if n % 3 == 0 then n / 3 else n / 3 + 1
  {
    var q, r := n / 3, n % 3;
    assert n + 2 == 3 * q + (r + 2);
    if r == 0 {
      assert (n + 2) / 3 == q;
    } else {
      assert n + 2 == 3 * (q + 1) + (r - 1);
    }
  }

  lemma FourTimesMod(k: nat, t: nat)
    requires t < 4
    ensures (4 * k + t) % 4 == t
  {
  }

  lemma SextetOfAlphabet(x: nat)
    requires x < 64
    ensures SextetOf(Alphabet(x)) == Some(x)
  {
  }

  /** Three bytes survive being cut into four sextets and packed again. */
  lemma PackGroup(b0: byte, b1: byte, b2: byte)
    ensures var xs := Sextets4(b0, b1, b2); Bytes3(xs[0], xs[1], xs[2], xs[3]) == [b0, b1, b2]
  {
    var n := b0 as int * 65536 + b1 as int * 256 + b2 as int;
    var xs := Sextets4(b0, b1, b2);
    SixBitDigits4(n);
    assert xs[0] * 262144 + xs[1] * 4096 + xs[2] * 64 + xs[3] == n;
    ByteDigits(n, b0, b1, b2);
  }

  lemma ByteDigits(n: int, b0: byte, b1: byte, b2: byte)
    requires n == b0 as int * 65536 + b1 as int * 256 + b2 as int
    ensures n / 65536 == b0 && (n / 256) % 256 == b1 && n % 256 == b2
  {
    var hi := b0 as int * 256 + b1 as int;
    assert n == hi * 256 + b2;
    assert n / 256 == hi;
    assert n % 256 == b2;
    assert hi % 256 == b1 && hi / 256 == b0;
    assert n / 65536 == b0;
  }

  /** Two bytes survive being cut into three sextets (two zero bits of padding) and packed again. */
  lemma PackPair(b0: byte, b1: byte)
    ensures var n := (b0 as int * 256 + b1 as int) * 4;
      Bytes2(n / 4096, (n / 64) % 64, n % 64) == [b0, b1]
  {
    var n := (b0 as int * 256 + b1 as int) * 4;
    SixBitDigits3(n);
    assert n / 4 == b0 as int * 256 + b1 as int;
  }

  /** Packing a leading group of four sextets, then the rest. */
  lemma PackCons(g: seq<nat>, rest: seq<nat>)
    requires |g| == 4 && forall i :: 0 <= i < 4 ==> g[i] < 64
    requires forall i :: 0 <= i < |rest| ==> rest[i] < 64
    requires |rest| % 4 != 1
    ensures forall i :: 0 <= i < |g + rest| ==> (g + rest)[i] < 64
    ensures Pack(g + rest) == Bytes3(g[0], g[1], g[2], g[3]) + Pack(rest)
  {
    var xs := g + rest;
    assert xs[4..] == rest;
  }

  lemma SplitCons(bs: seq<byte>)
    requires |bs| >= 3
    ensures Split(bs) == Sextets4(bs[0], bs[1], bs[2]) + Split(bs[3..])
  {
  }

  /** Packing the canonical sextets gives the bytes back. */
  lemma {:induction false} PackSplit(bs: seq<byte>)
    ensures Pack(Split(bs)) == bs
  {
    if |bs| >= 3 {
      SplitCons(bs);
      PackCons(Sextets4(bs[0], bs[1], bs[2]), Split(bs[3..]));
      PackGroup(bs[0], bs[1], bs[2]);
      PackSplit(bs[3..]);
      assert bs == [bs[0], bs[1], bs[2]] + bs[3..];
    } else if |bs| == 2 {
      PackSplitPair(bs);
    } else if |bs| == 1 {
      PackSplitSingle(bs);
    }
  }

  lemma PackSplitPair(bs: seq<byte>)
    requires |bs| == 2
    ensures Pack(Split(bs)) == bs
  {
    var b0: byte, b1: byte := bs[0], bs[1];
    assert bs == [b0, b1];
    SplitPair(b0, b1);
    PackPair(b0, b1);
  }

  lemma SplitPair(b0: byte, b1: byte)
    ensures var n := (b0 as int * 256 + b1 as int) * 4;
      Split([b0, b1]) == [n / 4096, (n / 64) % 64, n % 64]
  {
  }

  lemma PackSplitSingle(bs: seq<byte>)
    requires |bs| == 1
    ensures Pack(Split(bs)) == bs
  {
    var b: byte := bs[0];
    assert bs == [b];
    var n := b as int * 16;
    assert Split([b]) == [n / 64, n % 64];
    SingleDigits(b);
  }

  /** One byte survives being cut into two sextets (four zero bits of padding) and packed again. */
  lemma SingleDigits(b: byte)
    ensures var n := b as int * 16; Bytes1(n / 64, n % 64) == [b]
  {
  }

  lemma {:induction false} SextetsSpell(xs: seq<nat>)
    requires forall i :: 0 <= i < |xs| ==> xs[i] < 64
    ensures Sextets(Spell(xs)) == Some(xs)
  {
    if xs != [] {
      var s := Spell(xs);
      assert s[1..] == Spell(xs[1..]);
      SextetOfAlphabet(xs[0]);
      assert [xs[0]] + xs[1..] == xs;
      SextetsSpell(xs[1..]);
    }
  }

  lemma {:induction false} StripSpaceNoSpace(s: string)
    requires forall i :: 0 <= i < |s| ==> !IsAsciiSpace(s[i])
    ensures StripSpace(s) == s
  {
    if s != [] {
      StripSpaceNoSpace(s[1..]);
    }
  }

  lemma BtoaHasNoSpace(bs: seq<byte>)
    ensures StripSpace(Btoa(bs)) == Btoa(bs)
  {
    var s := Btoa(bs);
    var body := Spell(Split(bs));
    assert forall i :: 0 <= i < |s| ==> !IsAsciiSpace(s[i]) by {
      forall i | 0 <= i < |s| ensures !IsAsciiSpace(s[i]) {
        if i >= |body| { assert s[i] == '='; }
      }
    }
    StripSpaceNoSpace(s);
  }

  lemma StripTwo(body: string, s: string)
    requires s == body + "==" && |s| % 4 == 0
    ensures StripPadding(s) == body
  {
    assert s[..|s| - 2] == body;
  }

  lemma StripOne(body: string, s: string)
    requires s == body + "=" && |s| % 4 == 0 && body != [] && body[|body| - 1] != '='
    ensures StripPadding(s) == body
  {
    assert s[|s| - 2] == body[|body| - 1];
    assert s[..|s| - 1] == body;
  }

  lemma StripNone(s: string)
    requires s == [] || s[|s| - 1] != '='
    ensures StripPadding(s) == s
  {
  }

  lemma StripPaddingBtoa(bs: seq<byte>)
    ensures StripPadding(Btoa(bs)) == Spell(Split(bs))
  {
    var s := Btoa(bs);
    var xs := Split(bs);
    var body := Spell(xs);
    GroupRemainders(|bs|);
    assert s == body + Padding(bs);
    if |bs| % 3 == 1 {
      StripTwo(body, s);
    } else if |bs| % 3 == 2 {
      assert body[|body| - 1] == Alphabet(xs[|xs| - 1]);
      StripOne(body, s);
    } else {
      assert s == body;
      assert s != [] ==> s[|s| - 1] == Alphabet(xs[|xs| - 1]);
      StripNone(s);
    }
  }

  /** `atob(btoa(b)) == b`: the decoder accepts canonical base64 and returns its bytes. */
  lemma AtobBtoa(bs: seq<byte>)
    ensures Atob(Btoa(bs)) == Some(BinaryString(bs))
  {
    var xs := Split(bs);
    var t := Spell(xs);
    BtoaHasNoSpace(bs);
    StripPaddingBtoa(bs);
    assert StripPadding(StripSpace(Btoa(bs))) == t;
    GroupRemainders(|bs|);
    assert |t| % 4 != 1;
    SextetsSpell(xs);
    assert Sextets(t) == Some(xs);
    PackSplit(bs);
    assert Pack(xs) == bs;
  }
}
