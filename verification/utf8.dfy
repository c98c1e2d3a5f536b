/** The byte sequences the interpreter takes as text are exactly the encodings of Unicode scalar values (RFC 3629). */
module Utf8 {
  import opened Bytes
  import opened EscPosCommands

  predicate Scalar(c: nat) { c <= 0x10FFFF && !(0xD800 <= c <= 0xDFFF) }

  /** Section 3: one to four bytes. */
  function Encoding(c: nat): (s: seq<byte>)
    requires Scalar(c)
    ensures 1 <= |s| <= 4
  {
    if c < 0x80 then [c as byte]
    else if c < 0x800 then [(0xC0 + c / 64) as byte, (0x80 + c % 64) as byte]
    else if c < 0x10000 then [(0xE0 + c / 4096) as byte, (0x80 + c / 64 % 64) as byte, (0x80 + c % 64) as byte]
    else [(0xF0 + c / 262144) as byte, (0x80 + c / 4096 % 64) as byte, (0x80 + c / 64 % 64) as byte, (0x80 + c % 64) as byte]
  }

  ghost predicate AllScalars(cs: seq<nat>) { forall i :: 0 <= i < |cs| ==> Scalar(cs[i]) }

  function EncodingOf(cs: seq<nat>): seq<byte>
    requires AllScalars(cs)
  {
    if cs == [] then [] else Encoding(cs[0]) + EncodingOf(cs[1..])
  }

  /** The scalar value the well-formed sequence in front stands for. */
  function Leading(s: seq<byte>): (c: nat)
    requires s != [] && Utf8Lead(s) > 0
  {
    match Utf8Lead(s)
    case 1 => s[0] as nat
    case 2 => (s[0] as nat - 0xC0) * 64 + (s[1] as nat - 0x80)
    case 3 => (s[0] as nat - 0xE0) * 4096 + (s[1] as nat - 0x80) * 64 + (s[2] as nat - 0x80)
    case _ => (s[0] as nat - 0xF0) * 262144 + (s[1] as nat - 0x80) * 4096 + (s[2] as nat - 0x80) * 64 + (s[3] as nat - 0x80)
  }

  lemma LeadingOfTwo(s: seq<byte>)
    requires s != [] && Utf8Lead(s) == 2
    ensures Scalar(Leading(s)) && s[..2] == Encoding(Leading(s))
  {
    var c := Leading(s);
    Digits64(s[0] as nat - 0xC0, s[1] as nat - 0x80);
    assert 0x80 <= c < 0x800;
  }

  /** Quotient and remainder by 64. */
  lemma Digits64(high: nat, low: nat)
    requires low < 64
    ensures (high * 64 + low) / 64 == high && (high * 64 + low) % 64 == low
  {
  }

  lemma Digits4096(high: nat, middle: nat, low: nat)
    requires middle < 64 && low < 64
    ensures var c := high * 4096 + middle * 64 + low; c / 4096 == high && c / 64 % 64 == middle && c % 64 == low
  {
    var c := high * 4096 + middle * 64 + low;
    Digits64(high * 64 + middle, low);
    Digits64(high, middle);
    assert c / 64 == high * 64 + middle;
  }

  lemma Digits262144(high: nat, second: nat, middle: nat, low: nat)
    requires second < 64 && middle < 64 && low < 64
    ensures var c := high * 262144 + second * 4096 + middle * 64 + low;
      c / 262144 == high && c / 4096 % 64 == second && c / 64 % 64 == middle && c % 64 == low
  {
    var c := high * 262144 + second * 4096 + middle * 64 + low;
    Digits4096(high * 64 + second, middle, low);
    Digits64(high, second);
    assert c / 4096 == high * 64 + second;
  }

  lemma LeadingOfThree(s: seq<byte>)
    requires s != [] && Utf8Lead(s) == 3
    ensures Scalar(Leading(s)) && s[..3] == Encoding(Leading(s))
  {
    var c := Leading(s);
    Digits4096(s[0] as nat - 0xE0, s[1] as nat - 0x80, s[2] as nat - 0x80);
    assert 0x800 <= c < 0x10000 && !(0xD800 <= c <= 0xDFFF);
  }

  lemma LeadingOfFour(s: seq<byte>)
    requires s != [] && Utf8Lead(s) == 4
    ensures Scalar(Leading(s)) && s[..4] == Encoding(Leading(s))
  {
    var c := Leading(s);
    Digits262144(s[0] as nat - 0xF0, s[1] as nat - 0x80, s[2] as nat - 0x80, s[3] as nat - 0x80);
    assert 0x10000 <= c <= 0x10FFFF;
  }

  lemma LeadingIsScalar(s: seq<byte>)
    requires s != [] && Utf8Lead(s) > 0
    ensures Scalar(Leading(s)) && s[..Utf8Lead(s)] == Encoding(Leading(s))
  {
    if Utf8Lead(s) == 2 {
      LeadingOfTwo(s);
    } else if Utf8Lead(s) == 3 {
      LeadingOfThree(s);
    } else if Utf8Lead(s) == 4 {
      LeadingOfFour(s);
    }
  }

  lemma LeadOfTwo(a: byte, b: byte, rest: seq<byte>)
    requires 0xC2 <= a <= 0xDF && IsTail(b)
    ensures Utf8Lead([a, b] + rest) == 2
  {
  }

  lemma LeadOfThree(a: byte, b: byte, c: byte, rest: seq<byte>)
    requires 0xE0 <= a <= 0xEF && IsTail(b) && IsTail(c) && (a == 0xE0 ==> b >= 0xA0) && (a == 0xED ==> b <= 0x9F)
    ensures Utf8Lead([a, b, c] + rest) == 3
  {
  }

  lemma LeadOfFour(a: byte, b: byte, c: byte, d: byte, rest: seq<byte>)
    requires 0xF0 <= a <= 0xF4 && IsTail(b) && IsTail(c) && IsTail(d) && (a == 0xF0 ==> b >= 0x90) && (a == 0xF4 ==> b <= 0x8F)
    ensures Utf8Lead([a, b, c, d] + rest) == 4
  {
  }

  lemma EncodingLeads(c: nat, rest: seq<byte>)
    requires Scalar(c)
    ensures Utf8Lead(Encoding(c) + rest) == |Encoding(c)| && (Encoding(c) + rest)[|Encoding(c)|..] == rest
  {
    var s := Encoding(c);
    assert (s + rest)[|s|..] == rest;
    if c < 0x80 {
    } else if c < 0x800 {
      hide Utf8Lead;
      LeadOfTwo(s[0], s[1], rest);
    } else if c < 0x10000 {
      hide Utf8Lead;
      LeadOfThree(s[0], s[1], s[2], rest);
    } else {
      hide Utf8Lead;
      LeadOfFour(s[0], s[1], s[2], s[3], rest);
    }
  }

  lemma TailIsUtf8(s: seq<byte>)
    requires s != [] && IsUtf8(s)
    ensures 0 < Utf8Lead(s) <= |s| && IsUtf8(s[Utf8Lead(s)..])
  {
    hide Utf8Lead;
  }

  lemma OneMoreScalar(c: nat, more: seq<nat>)
    requires Scalar(c) && AllScalars(more)
    ensures AllScalars([c] + more) && EncodingOf([c] + more) == Encoding(c) + EncodingOf(more)
  {
    assert ([c] + more)[1..] == more;
  }

  function ScalarsOf(s: seq<byte>): seq<nat>
    requires IsUtf8(s)
    decreases |s|
  {
    if s == [] then []
    else
      TailIsUtf8(s);
      [Leading(s)] + ScalarsOf(s[Utf8Lead(s)..])
  }

  lemma {:induction false} Decodes(s: seq<byte>)
    requires IsUtf8(s)
    ensures AllScalars(ScalarsOf(s)) && s == EncodingOf(ScalarsOf(s))
    decreases |s|
  {
    if s != [] {
      TailIsUtf8(s);
      LeadingIsScalar(s);
      FrontAndRest(s, Utf8Lead(s));
      Decodes(s[Utf8Lead(s)..]);
      OneMoreScalar(Leading(s), ScalarsOf(s[Utf8Lead(s)..]));
      hide Utf8Lead, Encoding, Leading, Scalar, IsUtf8, EncodingOf, AllScalars;
    }
  }

  lemma FrontAndRest(s: seq<byte>, n: nat)
    requires n <= |s|
    ensures s == s[..n] + s[n..]
  {
  }

  lemma {:induction false} Encodes(cs: seq<nat>)
    requires AllScalars(cs)
    ensures IsUtf8(EncodingOf(cs))
  {
    if cs != [] {
      Encodes(cs[1..]);
      EncodingLeads(cs[0], EncodingOf(cs[1..]));
      hide Utf8Lead, Encoding;
    }
  }

  /** Well-formed is what some sequence of scalar values encodes to, and nothing else. */
  lemma {:induction false} Utf8IffEncoding(s: seq<byte>)
    ensures IsUtf8(s) <==> exists cs :: AllScalars(cs) && s == EncodingOf(cs)
  {
    if IsUtf8(s) {
      Decodes(s);
    }
    if cs :| AllScalars(cs) && s == EncodingOf(cs) {
      Encodes(cs);
    }
  }
}
