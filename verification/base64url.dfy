/** Unpadded base64url (RFC 4648, section 5) as two accumulator loops, exact inverses of each other. */
module Base64Url {
  import opened Arithmetic
  import opened Bytes
  import opened Results

  datatype Malformed = NotBase64Url | TrailingBits

  // ---------- The alphabet ----------

  predicate InAlphabet(c: char) {
    'A' <= c <= 'Z' || 'a' <= c <= 'z' || '0' <= c <= '9' || c == '-' || c == '_'
  }

  /** The position of a character in the alphabet. */
  function Sextet(c: char): (v: nat)
    requires InAlphabet(c)
    ensures v < 64 && Digit(v) == c
  {
    if 'A' <= c <= 'Z' then c as int - 'A' as int
    else if 'a' <= c <= 'z' then c as int - 'a' as int + 26
    else if '0' <= c <= '9' then c as int - '0' as int + 52
    else if c == '-' then 62 else 63
  }

  /** The character at a position of the alphabet. */
  function Digit(v: nat): (c: char)
    requires v < 64
  {
    if v < 26 then ('A' as int + v) as char
    else if v < 52 then ('a' as int + (v - 26)) as char
    else if v < 62 then ('0' as int + (v - 52)) as char
    else if v == 62 then '-' else '_'
  }

  lemma DigitInAlphabet(v: nat)
    requires v < 64
    ensures InAlphabet(Digit(v)) && Sextet(Digit(v)) == v
  {
  }

  // ---------- What the loops compute ----------

  predicate AllDigits(s: string) { forall i :: 0 <= i < |s| ==> InAlphabet(s[i]) }

  predicate WellFormed(s: string) { s != [] && AllDigits(s) && |s| % 4 != 1 }

  /** The bytes still to come from `s` when `bits` bits, worth `acc`, are pending. */
  function DecodeFrom(s: string, acc: nat, bits: nat): Result<seq<byte>, Malformed>
    requires AllDigits(s) && bits < 8
  {
    if s == [] then (if bits > 0 && acc % Power(bits) != 0 then Err(TrailingBits) else Ok([]))
    else
      var sum, total := acc * 64 + Sextet(s[0]), bits + 6;
      if total < 8 then DecodeFrom(s[1..], sum, total)
      else
        var left := total - 8;
        match DecodeFrom(s[1..], sum % Power(left), left)
        case Err(error) => Err(error)
        case Ok(rest) => Ok([((sum / Power(left)) % 256) as byte] + rest)
  }

  function Decoded(s: string): Result<seq<byte>, Malformed> {
    if WellFormed(s) then DecodeFrom(s, 0, 0) else Err(NotBase64Url)
  }

  /** The digits that `acc` gives while it holds at least six bits, and what it holds afterwards. */
  function Emitted(acc: nat, bits: nat): (r: (string, nat, nat))
    ensures r.2 < 6
    decreases bits
  {
    if bits < 6 then ([], acc, bits)
    else
      var left := bits - 6;
      var (digits, a, b) := Emitted(acc % Power(left), left);
      ([Digit((acc / Power(left)) % 64)] + digits, a, b)
  }

  function EncodeFrom(value: seq<byte>, acc: nat, bits: nat): string
    requires bits < 6
  {
    if value == [] then (if bits > 0 then [Digit((acc * Power(6 - bits)) % 64)] else [])
    else
      var (digits, a, b) := Emitted(acc * 256 + value[0] as nat, bits + 8);
      digits + EncodeFrom(value[1..], a, b)
  }

  function Encoded(value: seq<byte>): string { EncodeFrom(value, 0, 0) }

  // ---------- The loops ----------

  /** The accumulator stays below 2^bits, so with at most 13 bits it never leaves 32-bit range. */
  method DecodeBase64Url(s: string) returns (r: Result<seq<byte>, Malformed>)
    ensures r == Decoded(s)
  {
    if !WellFormed(s) {
      return Err(NotBase64Url);
    }
    hide Power, Sextet, WellFormed, DecodeFrom, Prepend;
    var output: seq<byte> := [];
    var acc: nat, bits: nat := 0, 0;
    PowerValues();
    assert s[0..] == s;
    DecodedFrom(s);
    for i := 0 to |s|
      invariant bits < 8 && acc < Power(bits)
      invariant Decoded(s) == Prepend(output, DecodeFrom(s[i..], acc, bits))
    {
      DecodeStep(s, i, acc, bits);
      SixMore(acc, bits, Sextet(s[i]));
      acc := acc * 64 + Sextet(s[i]);
      bits := bits + 6;
      if bits >= 8 {
        bits := bits - 8;
        PrependTwice(output, [((acc / Power(bits)) % 256) as byte], DecodeFrom(s[i + 1..], acc % Power(bits), bits));
        output := output + [((acc / Power(bits)) % 256) as byte];
        acc := acc % Power(bits);
      }
    }
    DecodeEnd(acc, bits);
    PrependEnd(output);
    if bits > 0 && acc % Power(bits) != 0 {
      return Err(TrailingBits);
    }
    return Ok(output);
  }

  function Prepend(output: seq<byte>, r: Result<seq<byte>, Malformed>): Result<seq<byte>, Malformed> {
    if r.Ok? then Ok(output + r.value) else r
  }

  lemma DecodedFrom(s: string)
    requires WellFormed(s)
    ensures AllDigits(s) && Decoded(s) == Prepend([], DecodeFrom(s, 0, 0))
  {
    PrependTwice([], [], DecodeFrom(s, 0, 0));
  }

  lemma PrependTwice(a: seq<byte>, b: seq<byte>, r: Result<seq<byte>, Malformed>)
    ensures Prepend(a, Prepend(b, r)) == Prepend(a + b, r)
    ensures Prepend([], r) == r
  {
    if r.Ok? {
      assert a + (b + r.value) == (a + b) + r.value;
      assert [] + r.value == r.value;
    }
  }

  lemma PrependEnd(output: seq<byte>)
    ensures Prepend(output, Ok([])) == Ok(output) && Prepend(output, Err(TrailingBits)) == Err(TrailingBits)
  {
    assert output + [] == output;
  }

  lemma DecodeEnd(acc: nat, bits: nat)
    requires bits < 8
    ensures DecodeFrom([], acc, bits) == if bits > 0 && acc % Power(bits) != 0 then Err(TrailingBits) else Ok([])
  {
  }

  lemma DecodeStep(s: string, i: nat, acc: nat, bits: nat)
    requires AllDigits(s) && i < |s| && bits < 8
    ensures var sum, total := acc * 64 + Sextet(s[i]), bits + 6;
      DecodeFrom(s[i..], acc, bits)
      == if total < 8 then DecodeFrom(s[i + 1..], sum, total)
         else Prepend([((sum / Power(total - 8)) % 256) as byte], DecodeFrom(s[i + 1..], sum % Power(total - 8), total - 8))
  {
    assert s[i..][0] == s[i] && s[i..][1..] == s[i + 1..];
  }

  lemma PowerValues()
    ensures Power(0) == 1 && Power(1) == 2 && Power(2) == 4 && Power(3) == 8 && Power(4) == 16 && Power(5) == 32
    ensures Power(6) == 64 && Power(7) == 128
  {
    assert Power(3) == 8;
    assert Power(5) == 32;
  }

  lemma SixMore(acc: nat, bits: nat, v: nat)
    requires acc < Power(bits) && v < 64
    ensures acc * 64 + v < Power(bits + 6)
  {
    var p := Power(bits);
    assert Power(bits + 1) == 2 * p;
    assert Power(bits + 2) == 4 * p;
    assert Power(bits + 3) == 8 * p;
    assert Power(bits + 4) == 16 * p;
    assert Power(bits + 5) == 32 * p;
  }

  /** The inner loop: six bits at a time. */
  method EmitDigits(sum: nat, total: nat) returns (digits: string, acc: nat, bits: nat)
    ensures (digits, acc, bits) == Emitted(sum, total)
  {
    hide Power, Digit;
    digits, acc, bits := [], sum, total;
    while bits >= 6
      invariant Emitted(sum, total).0 == digits + Emitted(acc, bits).0
      invariant Emitted(sum, total).1 == Emitted(acc, bits).1 && Emitted(sum, total).2 == Emitted(acc, bits).2
    {
      Regroup(digits, [Digit((acc / Power(bits - 6)) % 64)], digits + [Digit((acc / Power(bits - 6)) % 64)],
        Emitted(acc % Power(bits - 6), bits - 6).0);
      bits := bits - 6;
      digits := digits + [Digit((acc / Power(bits)) % 64)];
      acc := acc % Power(bits);
    }
    assert digits + [] == digits;
  }

  lemma EmptyRest(output: string, value: seq<byte>, acc: nat, bits: nat)
    requires bits < 6
    ensures EncodeFrom(value[|value|..], acc, bits) == EncodeFrom([], acc, bits)
    ensures output + [] == output
  {
    assert value[|value|..] == [];
  }

  method EncodeBase64Url(value: seq<byte>) returns (output: string)
    ensures output == Encoded(value)
  {
    hide Power, Digit, EncodeFrom, Emitted;
    output := [];
    var acc: nat, bits: nat := 0, 0;
    assert value[0..] == value;
    for i := 0 to |value|
      invariant bits < 6
      invariant Encoded(value) == output + EncodeFrom(value[i..], acc, bits)
    {
      EncodeStep(value, i, acc, bits);
      var digits, rest, left := EmitDigits(acc * 256 + value[i] as nat, bits + 8);
      Regroup(output, digits, output + digits, EncodeFrom(value[i + 1..], rest, left));
      output, acc, bits := output + digits, rest, left;
    }
    EmptyRest(output, value, acc, bits);
    EncodeEnd(acc, bits);
    if bits > 0 {
      output := output + [Digit((acc * Power(6 - bits)) % 64)];
    }
  }

  lemma Regroup(start: string, digits: string, output: string, rest: string)
    requires start + digits == output
    ensures start + (digits + rest) == output + rest
  {
    assert start + (digits + rest) == (start + digits) + rest;
  }

  lemma EncodeEnd(acc: nat, bits: nat)
    requires bits < 6
    ensures EncodeFrom([], acc, bits) == if bits > 0 then [Digit((acc * Power(6 - bits)) % 64)] else []
  {
  }

  lemma EncodeStep(value: seq<byte>, i: nat, acc: nat, bits: nat)
    requires i < |value| && bits < 6
    ensures var (digits, a, b) := Emitted(acc * 256 + value[i] as nat, bits + 8);
      EncodeFrom(value[i..], acc, bits) == digits + EncodeFrom(value[i + 1..], a, b)
  {
    hide Emitted, Power, Digit;
    assert value[i..][0] == value[i] && value[i..][1..] == value[i + 1..];
  }

  // ---------- One step with numbers ----------

  lemma EmitsStep(acc: nat, bits: nat, p: nat)
    requires bits >= 6 && p == Power(bits - 6)
    ensures var e := Emitted(acc % p, bits - 6);
      Emitted(acc, bits) == ([Digit((acc / p) % 64)] + e.0, e.1, e.2)
    ensures bits < 12 ==> Emitted(acc, bits) == ([Digit((acc / p) % 64)], acc % p, bits - 6)
  {
    hide Power, Digit;
    if bits < 12 {
      assert Emitted(acc % p, bits - 6) == ([], acc % p, bits - 6);
      assert [Digit((acc / p) % 64)] + [] == [Digit((acc / p) % 64)];
    }
  }

  lemma EmitsOne(acc: nat, bits: nat)
    requires (bits == 8 && acc < 256) || (bits == 10 && acc < 1024)
    ensures Emitted(acc, bits)
         == if bits == 8 then ([Digit(acc / 4)], acc % 4, 2) else ([Digit(acc / 16)], acc % 16, 4)
  {
    PowerValues();
    hide Emitted, Power, Digit;
    if bits == 8 {
      EmitsStep(acc, 8, 4);
    } else {
      EmitsStep(acc, 10, 16);
    }
  }

  lemma EmitsTwo(acc: nat)
    requires acc < 4096
    ensures Emitted(acc, 12) == ([Digit(acc / 64), Digit(acc % 64)], 0, 0)
  {
    PowerValues();
    hide Emitted, Power, Digit;
    var a := acc % 64;
    EmitsStep(acc, 12, 64);
    EmitsStep(a, 6, 1);
    assert [Digit(acc / 64)] + [Digit(a)] == [Digit(acc / 64), Digit(a)];
  }

  /** Reading one digit. */
  lemma ReadsDigit(v: nat, rest: string, acc: nat, bits: nat)
    requires v < 64 && AllDigits(rest) && bits in {0, 2, 4, 6}
    ensures AllDigits([Digit(v)] + rest)
    ensures var sum := acc * 64 + v;
      DecodeFrom([Digit(v)] + rest, acc, bits)
      == match bits
         case 0 => DecodeFrom(rest, sum, 6)
         case 2 => Prepend([(sum % 256) as byte], DecodeFrom(rest, 0, 0))
         case 4 => Prepend([(sum / 4 % 256) as byte], DecodeFrom(rest, sum % 4, 2))
         case _ => Prepend([(sum / 16 % 256) as byte], DecodeFrom(rest, sum % 16, 4))
  {
    DigitInAlphabet(v);
    PowerValues();
    DecodeStep([Digit(v)] + rest, 0, acc, bits);
    assert ([Digit(v)] + rest)[0..] == [Digit(v)] + rest && ([Digit(v)] + rest)[1..] == rest;
    hide Power, Digit, Sextet, DecodeFrom;
  }

  /** What a digit leaves behind, with the quotient and the remainder given. */
  lemma ReadsAs(v: nat, rest: string, acc: nat, bits: nat, unit: nat, b: byte, left: nat)
    requires v < 64 && AllDigits(rest) && (bits == 2 || bits == 4 || bits == 6)
    requires unit == (if bits == 2 then 1 else if bits == 4 then 4 else 16)
    requires left < unit && acc * 64 + v == b as nat * unit + left
    ensures AllDigits([Digit(v)] + rest)
    ensures DecodeFrom([Digit(v)] + rest, acc, bits) == Prepend([b], DecodeFrom(rest, left, bits - 2))
  {
    hide Power, Digit, DecodeFrom, AllDigits, Prepend;
    ReadsDigit(v, rest, acc, bits);
    if bits == 2 {
      Divided(acc * 64 + v, 1, b, left);
    } else if bits == 4 {
      Divided(acc * 64 + v, 4, b, left);
    } else {
      Divided(acc * 64 + v, 16, b, left);
    }
  }

  lemma Divided(sum: nat, unit: nat, b: byte, left: nat)
    requires (unit == 1 || unit == 4 || unit == 16) && left < unit && sum == b as nat * unit + left
    ensures sum / unit == b as nat && sum % unit == left && (sum / unit % 256) as byte == b
    ensures unit == 1 ==> (sum % 256) as byte == b && left == 0
  {
  }

  lemma DigitsFollow(v: nat, rest: string)
    requires v < 64 && AllDigits(rest)
    ensures AllDigits([Digit(v)] + rest)
  {
    DigitInAlphabet(v);
  }

  lemma {:induction false} EncodedDigits(value: seq<byte>, acc: nat, bits: nat)
    requires (bits == 0 && acc == 0) || (bits == 2 && acc < 4) || (bits == 4 && acc < 16)
    ensures AllDigits(EncodeFrom(value, acc, bits))
  {
    hide Digit, EncodeFrom, Emitted, Power, AllDigits;
    if value == [] {
      EncodeEnd(acc, bits);
      EndDigits(if bits > 0 then (acc * Power(6 - bits)) % 64 else 0);
    } else {
      var sum, b, rest := acc * 256 + value[0] as nat, value[0] as nat, value[1..];
      EncodeStep(value, 0, acc, bits);
      assert value[0..] == value;
      EightMore(acc, b);
      if bits == 4 {
        EmitsTwo(sum);
        EncodedDigits(rest, 0, 0);
        DigitsFollow(sum % 64, EncodeFrom(rest, 0, 0));
        DigitsFollow(sum / 64, [Digit(sum % 64)] + EncodeFrom(rest, 0, 0));
        assert [Digit(sum / 64), Digit(sum % 64)] + EncodeFrom(rest, 0, 0)
            == [Digit(sum / 64)] + ([Digit(sum % 64)] + EncodeFrom(rest, 0, 0));
      } else if bits == 2 {
        EmitsOne(sum, 10);
        EncodedDigits(rest, sum % 16, 4);
        DigitsFollow(sum / 16, EncodeFrom(rest, sum % 16, 4));
      } else {
        EmitsOne(sum, 8);
        EncodedDigits(rest, sum % 4, 2);
        DigitsFollow(sum / 4, EncodeFrom(rest, sum % 4, 2));
      }
    }
  }

  lemma EndDigits(v: nat)
    requires v < 64
    ensures AllDigits([]) && AllDigits([Digit(v)])
  {
    DigitInAlphabet(v);
  }

  lemma EightMore(low: nat, b: nat)
    requires b < 256
    ensures (low * 256 + b) / 16 == low * 16 + b / 16 && (low * 256 + b) % 16 == b % 16
    ensures (low * 256 + b) / 64 == low * 4 + b / 64 && (low * 256 + b) % 64 == b % 64
  {
  }

  // ---------- decode(encode(b)) ----------

  /** The byte whose first bits the decoder holds and whose last bits the encoder still has to give. */
  function Shared(high: nat, low: nat, bits: nat): seq<byte>
    requires (bits == 0) || (bits == 2 && high < 64 && low < 4) || (bits == 4 && high < 16 && low < 16)
  {
    if bits == 0 then [] else if bits == 2 then [(high * 4 + low) as byte] else [(high * 16 + low) as byte]
  }

  lemma TwoBits(high: nat, low: nat, b: nat)
    requires high < 64 && low < 4 && b < 256
    ensures var sum := low * 256 + b;
      && sum / 16 == low * 16 + b / 16 && sum % 16 == b % 16
      && (high * 64 + sum / 16) / 16 == high * 4 + low && (high * 64 + sum / 16) % 16 == b / 16
  {
  }

  lemma FourBits(high: nat, low: nat, b: nat)
    requires high < 16 && low < 16 && b < 256
    ensures var sum := low * 256 + b;
      && sum / 64 == low * 4 + b / 64 && sum % 64 == b % 64
      && (high * 64 + sum / 64) / 4 == high * 16 + low && (high * 64 + sum / 64) % 4 == b / 64
      && (b / 64 * 64 + sum % 64) % 256 == b
  {
  }

  lemma ReadsPaddedDigit(v: nat, high: nat, bits: nat, b: byte)
    requires v < 64 && (bits == 4 || bits == 6) && high < 64
    requires var sum := high * 64 + v;
      if bits == 6 then sum / 16 == b as nat && sum % 16 == 0 else sum / 4 == b as nat && sum % 4 == 0
    ensures AllDigits([Digit(v)]) && DecodeFrom([Digit(v)], high, bits) == Ok([b])
  {
    hide Power, Digit, DecodeFrom;
    assert [Digit(v)] + [] == [Digit(v)];
    ReadsAs(v, [], high, bits, if bits == 4 then 4 else 16, b, 0);
    DecodeEnd(0, bits - 2);
    PrependEnd([b]);
    hide AllDigits, InAlphabet;
  }

  /** The padded last digit gives the rest of the shared byte and only zero bits after it. */
  lemma LastDigit(high: nat, low: nat, bits: nat)
    requires (bits == 2 && high < 64 && low < 4) || (bits == 4 && high < 16 && low < 16)
    ensures AllDigits(EncodeFrom([], low, bits))
    ensures DecodeFrom(EncodeFrom([], low, bits), high, 8 - bits) == Ok(Shared(high, low, bits))
  {
    hide Digit, EncodeFrom, DecodeFrom, AllDigits;
    PadArithmetic(high, low);
    PaddedDigit(low, bits);
    if bits == 2 {
      ReadsPaddedDigit(low * 16, high, 6, (high * 4 + low) as byte);
    } else {
      ReadsPaddedDigit(low * 4, high, 4, (high * 16 + low) as byte);
    }
  }

  lemma PaddedDigit(low: nat, bits: nat)
    requires (bits == 2 && low < 4) || (bits == 4 && low < 16)
    ensures EncodeFrom([], low, bits) == [Digit(if bits == 2 then low * 16 else low * 4)]
  {
    PowerValues();
    EncodeEnd(low, bits);
    hide Power, Digit, EncodeFrom;
    if bits == 2 {
      assert (low * 16) % 64 == low * 16;
    } else {
      assert (low * 4) % 64 == low * 4;
    }
  }

  lemma PadArithmetic(high: nat, low: nat)
    ensures (high * 64 + low * 16) / 16 == high * 4 + low && (high * 64 + low * 16) % 16 == 0
    ensures (high * 64 + low * 4) / 4 == high * 16 + low && (high * 64 + low * 4) % 4 == 0
  {
  }

  lemma Halves(b: byte, unit: nat)
    requires unit == 4 || unit == 16
    ensures b as nat == b as nat / unit * unit + b as nat % unit && b as nat / unit < 256 / unit && b as nat % unit < unit
  {
  }

  /** With nothing pending the first digit shares the whole byte. */
  lemma FirstDigit(b: byte, next: string, rest: seq<byte>)
    requires AllDigits(next)
    requires DecodeFrom(next, b as nat / 4, 6) == Ok(Shared(b as nat / 4, b as nat % 4, 2) + rest)
    ensures AllDigits([Digit(b as nat / 4)] + next)
    ensures DecodeFrom([Digit(b as nat / 4)] + next, 0, 0) == Ok([b] + rest)
  {
    hide Power, Digit, DecodeFrom, AllDigits;
    Halves(b, 4);
    ReadsDigit(b as nat / 4, next, 0, 0);
  }

  /** One digit finishes the shared byte and shares the next one. */
  lemma OneDigit(high: nat, low: nat, b: byte, next: string, rest: seq<byte>)
    requires high < 64 && low < 4 && AllDigits(next)
    requires DecodeFrom(next, b as nat / 16, 4) == Ok(Shared(b as nat / 16, b as nat % 16, 4) + rest)
    ensures AllDigits([Digit(low * 16 + b as nat / 16)] + next)
    ensures DecodeFrom([Digit(low * 16 + b as nat / 16)] + next, high, 6) == Ok(Shared(high, low, 2) + ([b] + rest))
  {
    hide Power, Digit, DecodeFrom, AllDigits;
    Halves(b, 16);
    ReadsAs(low * 16 + b as nat / 16, next, high, 6, 16, (high * 4 + low) as byte, b as nat / 16);
  }

  /** Encoder and decoder run in lock-step, sharing the byte between them. */
  lemma {:induction false} DecodesWhatIsEncoded(value: seq<byte>, high: nat, low: nat, bits: nat)
    requires (bits == 0 && high == 0 && low == 0) || (bits == 2 && high < 64 && low < 4) || (bits == 4 && high < 16 && low < 16)
    ensures AllDigits(EncodeFrom(value, low, bits))
    ensures DecodeFrom(EncodeFrom(value, low, bits), high, if bits == 0 then 0 else 8 - bits) == Ok(Shared(high, low, bits) + value)
  {
    hide Power, Digit, EncodeFrom, DecodeFrom, Emitted;
    EncodedDigits(value, low, bits);
    if value == [] {
      if bits == 0 {
        EncodeEnd(0, 0);
        DecodeEnd(0, 0);
      } else {
        LastDigit(high, low, bits);
      }
      assert Shared(high, low, bits) + [] == Shared(high, low, bits);
    } else {
      var rest, sum := value[1..], low * 256 + value[0] as nat;
      EncodeStep(value, 0, low, bits);
      assert value[0..] == value && [value[0]] + rest == value;
      if bits == 0 {
        EmitsOne(sum, 8);
        DecodesWhatIsEncoded(rest, sum / 4, sum % 4, 2);
        FirstDigit(value[0], EncodeFrom(rest, sum % 4, 2), rest);
        assert Shared(0, 0, 0) + value == value;
      } else if bits == 2 {
        EmitsOne(sum, 10);
        DecodesWhatIsEncoded(rest, value[0] as nat / 16, sum % 16, 4);
        TwoBits(high, low, value[0] as nat);
        OneDigit(high, low, value[0], EncodeFrom(rest, sum % 16, 4), rest);
      } else {
        EmitsTwo(sum);
        DecodesWhatIsEncoded(rest, 0, 0, 0);
        assert Shared(0, 0, 0) + rest == rest;
        TwoDigits(high, low, value[0], EncodeFrom(rest, 0, 0), rest);
      }
    }
  }

  /** The digit that finishes the shared byte and starts the next one. */
  lemma SharedDigit(high: nat, low: nat, q: nat, next: string, decoded: seq<byte>)
    requires high < 16 && low < 16 && q < 4 && AllDigits(next) && DecodeFrom(next, q, 2) == Ok(decoded)
    ensures AllDigits([Digit(low * 4 + q)] + next)
    ensures DecodeFrom([Digit(low * 4 + q)] + next, high, 4) == Ok(Shared(high, low, 4) + decoded)
  {
    hide Power, Digit, DecodeFrom, AllDigits;
    ReadsAs(low * 4 + q, next, high, 4, 4, (high * 16 + low) as byte, q);
  }

  lemma NextWhole(b: byte, tail: string, rest: seq<byte>)
    requires AllDigits(tail) && DecodeFrom(tail, 0, 0) == Ok(rest)
    ensures AllDigits([Digit(b as nat % 64)] + tail)
    ensures DecodeFrom([Digit(b as nat % 64)] + tail, b as nat / 64, 2) == Ok([b] + rest)
  {
    hide Power, Digit, DecodeFrom;
    ReadsAs(b as nat % 64, tail, b as nat / 64, 2, 1, b, 0);
  }

  lemma TwoAndMore(a: char, b: char, tail: string)
    ensures [a, b] + tail == [a] + ([b] + tail)
  {
  }

  /** Two digits finish the shared byte and give the next one whole. */
  lemma TwoDigits(high: nat, low: nat, b: byte, tail: string, rest: seq<byte>)
    requires high < 16 && low < 16 && AllDigits(tail) && DecodeFrom(tail, 0, 0) == Ok(rest)
    ensures var sum := low * 256 + b as nat;
      && AllDigits([Digit(sum / 64), Digit(sum % 64)] + tail)
      && DecodeFrom([Digit(sum / 64), Digit(sum % 64)] + tail, high, 4) == Ok(Shared(high, low, 4) + ([b] + rest))
  {
    hide Power, Digit, DecodeFrom, AllDigits, Shared;
    FourBits(high, low, b as nat);
    NextWhole(b, tail, rest);
    SharedDigit(high, low, b as nat / 64, [Digit(b as nat % 64)] + tail, [b] + rest);
    TwoAndMore(Digit(low * 4 + b as nat / 64), Digit(b as nat % 64), tail);
  }

  // ---------- encode(decode(s)) ----------

  /** What the decoder holds pending, with `bits` bits, and the encoder, with the rest of a digit. */
  predicate Pending(low: nat, high: nat, bits: nat) {
    match bits
    case 0 => low == 0 && high == 0
    case 2 => low < 16 && high < 4
    case 4 => low < 4 && high < 16
    case _ => bits == 6 && low == 0 && high < 64
  }

  /** The digit the decoder has begun to use up and the encoder has not finished yet. */
  function Split(low: nat, high: nat, bits: nat): string
    requires Pending(low, high, bits)
  {
    match bits
    case 0 => []
    case 2 => [Digit(low * 4 + high)]
    case 4 => [Digit(low * 16 + high)]
    case _ => [Digit(high)]
  }

  /** How many digits may be left, modulo four, so that the whole is not one too long. */
  predicate Completes(length: nat, bits: nat) {
    match bits case 0 => length % 4 != 1 case 2 => length % 4 != 2 case 4 => length % 4 != 3 case _ => length % 4 != 0
  }

  lemma {:induction false} EncodesWhatIsDecoded(s: string, low: nat, high: nat, bits: nat)
    requires AllDigits(s) && Pending(low, high, bits) && Completes(|s|, bits)
    requires DecodeFrom(s, high, bits).Ok?
    ensures EncodeFrom(DecodeFrom(s, high, bits).value, low, (6 - bits) % 6) == Split(low, high, bits) + s
  {
    hide Power, Digit, EncodeFrom, DecodeFrom, Emitted;
    if s == [] {
      DecodeEnd(high, bits);
      EndsTogether(low, high, bits);
    } else {
      TailDigits(s);
      hide AllDigits, InAlphabet;
      var v, rest := Sextet(s[0]), s[1..];
      assert [Digit(v)] + rest == s;
      ReadsDigit(v, rest, high, bits);
      StepArithmetic(low, high, v);
      match bits {
        case 0 =>
          EncodesWhatIsDecoded(rest, 0, v, 6);
          assert [] + s == s;
        case 2 =>
          EncodesWhatIsDecoded(rest, 0, 0, 0);
          AfterTwo(v, rest, low, high);
        case 4 =>
          EncodesWhatIsDecoded(rest, v / 4, v % 4, 2);
          AfterFour(v, rest, low, high);
        case _ =>
          EncodesWhatIsDecoded(rest, v / 16, v % 16, 4);
          AfterSix(v, rest, high);
      }
    }
  }

  lemma TailDigits(s: string)
    requires AllDigits(s) && s != []
    ensures InAlphabet(s[0]) && AllDigits(s[1..])
  {
  }

  lemma SixBits(high: nat, v: nat)
    requires v < 64 && high < 64
    ensures (high * 64 + v) / 16 % 256 == high * 4 + v / 16 < 256
    ensures (high * 4 + v / 16) / 4 == high && (high * 4 + v / 16) % 4 == v / 16
  {
    StepArithmetic(0, high, v);
  }

  lemma AfterSix(v: nat, rest: string, high: nat)
    requires v < 64 && high < 64 && AllDigits(rest) && DecodeFrom(rest, v % 16, 4).Ok?
    requires EncodeFrom(DecodeFrom(rest, v % 16, 4).value, v / 16, 2) == Split(v / 16, v % 16, 4) + rest
    ensures var r := Prepend([((high * 64 + v) / 16 % 256) as byte], DecodeFrom(rest, v % 16, 4));
      r.Ok? && EncodeFrom(r.value, 0, 0) == [Digit(high)] + ([Digit(v)] + rest)
  {
    hide Digit, EncodeFrom, DecodeFrom, AllDigits;
    SixBits(high, v);
    ReencodesOne((high * 4 + v / 16) as byte, DecodeFrom(rest, v % 16, 4).value, 0, 0);
  }

  lemma AfterFour(v: nat, rest: string, low: nat, high: nat)
    requires v < 64 && high < 16 && low < 4 && AllDigits(rest) && DecodeFrom(rest, v % 4, 2).Ok?
    requires EncodeFrom(DecodeFrom(rest, v % 4, 2).value, v / 4, 4) == Split(v / 4, v % 4, 2) + rest
    ensures var r := Prepend([((high * 64 + v) / 4 % 256) as byte], DecodeFrom(rest, v % 4, 2));
      r.Ok? && EncodeFrom(r.value, low, 2) == [Digit(low * 16 + high)] + ([Digit(v)] + rest)
  {
    hide Digit, EncodeFrom, DecodeFrom, AllDigits;
    StepArithmetic(low, high, v);
    ReencodesOne((high * 16 + v / 4) as byte, DecodeFrom(rest, v % 4, 2).value, low, 2);
  }

  lemma AfterTwo(v: nat, rest: string, low: nat, high: nat)
    requires v < 64 && high < 4 && low < 16 && AllDigits(rest) && DecodeFrom(rest, 0, 0).Ok?
    requires EncodeFrom(DecodeFrom(rest, 0, 0).value, 0, 0) == Split(0, 0, 0) + rest
    ensures var r := Prepend([((high * 64 + v) % 256) as byte], DecodeFrom(rest, 0, 0));
      r.Ok? && EncodeFrom(r.value, low, 4) == [Digit(low * 4 + high)] + ([Digit(v)] + rest)
  {
    hide Digit, EncodeFrom, DecodeFrom, AllDigits;
    EightMore(high, v);
    ReencodesTwo((high * 64 + v) as byte, DecodeFrom(rest, 0, 0).value, low);
    assert Split(0, 0, 0) + rest == rest;
    assert [Digit(low * 4 + high), Digit(v)] + rest == [Digit(low * 4 + high)] + ([Digit(v)] + rest);
  }

  lemma EndsTogether(low: nat, high: nat, bits: nat)
    requires Pending(low, high, bits) && bits != 6 && (bits > 0 ==> high % Power(bits) == 0)
    ensures EncodeFrom([], low, (6 - bits) % 6) == Split(low, high, bits) + []
  {
    PowerValues();
    hide Digit;
    if bits == 0 {
      EncodeEnd(0, 0);
    } else {
      PaddedDigit(low, 6 - bits);
      assert high == 0;
    }
  }

  lemma StepArithmetic(low: nat, high: nat, v: nat)
    requires v < 64
    ensures (high * 64 + v) / 16 == high * 4 + v / 16 && (high * 64 + v) % 16 == v % 16
    ensures (high * 64 + v) / 4 == high * 16 + v / 4 && (high * 64 + v) % 4 == v % 4
  {
  }

  /** Encoding one more byte after none or two pending bits. */
  lemma ReencodesOne(b: byte, rest: seq<byte>, low: nat, bits: nat)
    requires (bits == 0 && low == 0) || (bits == 2 && low < 4)
    ensures EncodeFrom([b] + rest, low, bits)
         == if bits == 0 then [Digit(b as nat / 4)] + EncodeFrom(rest, b as nat % 4, 2)
            else [Digit(low * 16 + b as nat / 16)] + EncodeFrom(rest, b as nat % 16, 4)
  {
    hide EncodeFrom, Digit, Emitted;
    EncodeStep([b] + rest, 0, low, bits);
    EmitsOne(low * 256 + b as nat, bits + 8);
    EightMore(low, b as nat);
    assert ([b] + rest)[0..] == [b] + rest && ([b] + rest)[1..] == rest;
  }

  /** Encoding one more byte after four pending bits. */
  lemma ReencodesTwo(b: byte, rest: seq<byte>, low: nat)
    requires low < 16
    ensures EncodeFrom([b] + rest, low, 4) == [Digit(low * 4 + b as nat / 64), Digit(b as nat % 64)] + EncodeFrom(rest, 0, 0)
  {
    hide EncodeFrom, Digit, Emitted;
    EncodeStep([b] + rest, 0, low, 4);
    EmitsTwo(low * 256 + b as nat);
    EightMore(low, b as nat);
    assert ([b] + rest)[0..] == [b] + rest && ([b] + rest)[1..] == rest;
  }

  // ---------- The codec ----------

  lemma {:induction false} EncodedLength(value: seq<byte>, acc: nat, bits: nat)
    requires (bits == 0 && acc == 0) || (bits == 2 && acc < 4) || (bits == 4 && acc < 16)
    ensures |EncodeFrom(value, acc, bits)| == (bits + 8 * |value| + 5) / 6
  {
    hide Digit, Emitted;
    if value != [] {
      var sum := acc * 256 + value[0] as nat;
      if bits == 4 {
        EmitsTwo(sum);
        EncodedLength(value[1..], 0, 0);
      } else {
        EmitsOne(sum, bits + 8);
        EncodedLength(value[1..], if bits == 0 then sum % 4 else sum % 16, bits + 2);
      }
    }
  }

  lemma {:induction false} DecodedLength(s: string, acc: nat, bits: nat)
    requires AllDigits(s) && bits < 8 && DecodeFrom(s, acc, bits).Ok?
    ensures |DecodeFrom(s, acc, bits).value| == (bits + 6 * |s|) / 8
  {
    hide Sextet, Power;
    if s != [] {
      var sum, total := acc * 64 + Sextet(s[0]), bits + 6;
      if total < 8 {
        DecodedLength(s[1..], sum, total);
      } else {
        DecodedLength(s[1..], sum % Power(total - 8), total - 8);
      }
    }
  }

  /**
   Decoding is the exact inverse of encoding: a string decodes to `value` iff `value` is not empty and
   encodes to that very string. So every accepted string is canonical, and only they are accepted.
   */
  lemma DecodeInvertsEncode(s: string, value: seq<byte>)
    ensures Decoded(s) == Ok(value) <==> value != [] && Encoded(value) == s
  {
    hide EncodeFrom, DecodeFrom;
    if value != [] && Encoded(value) == s {
      DecodesWhatIsEncoded(value, 0, 0, 0);
      EncodedLength(value, 0, 0);
      assert Shared(0, 0, 0) + value == value;
      assert WellFormed(s);
    }
    if Decoded(s) == Ok(value) {
      EncodesWhatIsDecoded(s, 0, 0, 0);
      DecodedLength(s, 0, 0);
      assert Split(0, 0, 0) + s == s;
    }
  }

  /** A decoded string gives exactly floor(6 n / 8) bytes. */
  lemma DecodedSize(s: string)
    requires Decoded(s).Ok?
    ensures |Decoded(s).value| == 6 * |s| / 8
  {
    DecodedLength(s, 0, 0);
  }

  /** `isUnpaddedBase64Url`: re-encoding gives the same string back. */
  method IsUnpaddedBase64Url(s: string) returns (r: bool)
    ensures r <==> Decoded(s).Ok?
    ensures r <==> exists value :: value != [] && Encoded(value) == s
  {
    hide Decoded, Encoded;
    var decoded := DecodeBase64Url(s);
    if decoded.Err? {
      r := false;
      forall value ensures !(value != [] && Encoded(value) == s) {
        DecodeInvertsEncode(s, value);
      }
    } else {
      var again := EncodeBase64Url(decoded.value);
      DecodeInvertsEncode(s, decoded.value);
      r := again == s;
    }
  }

  // ---------- The encoding of RFC 4648, character by character ----------

  /** Table 2 of section 5. */
  lemma CapitalsOfTable2()
    ensures [Digit(0), Digit(1), Digit(2), Digit(3), Digit(4), Digit(5), Digit(6), Digit(7), Digit(8),
             Digit(9), Digit(10), Digit(11), Digit(12), Digit(13), Digit(14), Digit(15), Digit(16), Digit(17),
             Digit(18), Digit(19), Digit(20), Digit(21), Digit(22), Digit(23), Digit(24), Digit(25)]
         == "ABCDEFGHIJKLMNOPQRSTUVWXYZ"
  {
  }

  lemma SmallLettersOfTable2()
    ensures [Digit(26), Digit(27), Digit(28), Digit(29), Digit(30), Digit(31), Digit(32), Digit(33), Digit(34),
             Digit(35), Digit(36), Digit(37), Digit(38), Digit(39), Digit(40), Digit(41), Digit(42), Digit(43),
             Digit(44), Digit(45), Digit(46), Digit(47), Digit(48), Digit(49), Digit(50), Digit(51)]
         == "abcdefghijklmnopqrstuvwxyz"
  {
  }

  lemma RestOfTable2()
    ensures [Digit(52), Digit(53), Digit(54), Digit(55), Digit(56), Digit(57), Digit(58), Digit(59), Digit(60),
             Digit(61), Digit(62), Digit(63)]
         == "0123456789-_"
  {
  }

  lemma BitsOfGroup(a: nat, b: nat, c: nat)
    requires a < 256 && b < 256 && c < 256
    ensures var x, y := (a % 4) * 256 + b, (b % 16) * 256 + c;
      && x < 1024 && x / 16 == (a % 4) * 16 + b / 16 && x % 16 == b % 16
      && y < 4096 && y / 64 == (b % 16) * 4 + c / 64 && y % 64 == c % 64
  {
  }

  /** Section 4: one byte left over becomes two digits, padded with zero bits. */
  lemma EncodesOneByte(a: byte)
    ensures Encoded([a]) == [Digit(a as nat / 4), Digit(a as nat % 4 * 16)]
  {
    PowerValues();
    BitsOfGroup(a as nat, 0, 0);
    EncodeEnd(a as nat % 4, 2);
    FromFirst(a, []);
    hide Power, Digit, Emitted, EncodeFrom;
    assert [a] + [] == [a];
  }

  /** Two bytes become three. */
  lemma EncodesTwoBytes(a: byte, b: byte)
    ensures Encoded([a, b]) == [Digit(a as nat / 4), Digit(a as nat % 4 * 16 + b as nat / 16), Digit(b as nat % 16 * 4)]
  {
    PowerValues();
    hide Power, Digit, Emitted, EncodeFrom;
    BitsOfGroup(a as nat, b as nat, 0);
    EncodeEnd(b as nat % 16, 4);
    FromFirst(a, [b]);
    FromSecond(a as nat % 4, b, []);
    assert [a] + [b] == [a, b] && [b] + [] == [b];
  }

  /** Three bytes become four digits, six bits each from the front. */
  lemma {:induction false} EncodesGroups(a: byte, b: byte, c: byte, rest: seq<byte>)
    ensures Encoded([a, b, c] + rest)
         == [Digit(a as nat / 4), Digit(a as nat % 4 * 16 + b as nat / 16), Digit(b as nat % 16 * 4 + c as nat / 64),
             Digit(c as nat % 64)] + Encoded(rest)
  {
    BitsOfGroup(a as nat, b as nat, c as nat);
    hide Digit, EncodeFrom;
    var t, u := [c] + rest, [b] + ([c] + rest);
    assert [a, b, c] + rest == [a] + u;
    FromFirst(a, u);
    FromSecond(a as nat % 4, b, t);
    FromThird(b as nat % 16, c, rest);
    FourDigits(Digit(a as nat / 4), Digit(a as nat % 4 * 16 + b as nat / 16), Digit(b as nat % 16 * 4 + c as nat / 64),
      Digit(c as nat % 64), Encoded(rest));
  }

  lemma FourDigits(p: char, q: char, r: char, s: char, rest: string)
    ensures [p] + ([q] + ([r, s] + rest)) == [p, q, r, s] + rest
  {
  }

  lemma FromFirst(a: byte, rest: seq<byte>)
    ensures EncodeFrom([a] + rest, 0, 0) == [Digit(a as nat / 4)] + EncodeFrom(rest, a as nat % 4, 2)
  {
    hide Power, Digit, Emitted;
    EmitsOne(a as nat, 8);
    assert ([a] + rest)[1..] == rest;
  }

  lemma FromSecond(high: nat, b: byte, rest: seq<byte>)
    requires high < 4
    ensures EncodeFrom([b] + rest, high, 2)
         == [Digit((high * 256 + b as nat) / 16)] + EncodeFrom(rest, (high * 256 + b as nat) % 16, 4)
  {
    hide Power, Digit, Emitted;
    EmitsOne(high * 256 + b as nat, 10);
    assert ([b] + rest)[1..] == rest;
  }

  lemma FromThird(high: nat, c: byte, rest: seq<byte>)
    requires high < 16
    ensures EncodeFrom([c] + rest, high, 4)
         == [Digit((high * 256 + c as nat) / 64), Digit((high * 256 + c as nat) % 64)] + EncodeFrom(rest, 0, 0)
  {
    hide Power, Digit, Emitted;
    EmitsTwo(high * 256 + c as nat);
    assert ([c] + rest)[1..] == rest;
  }

  ghost predicate Foreign(c: char) { forall v :: 0 <= v < 64 ==> c != Digit(v) }

  lemma ForeignIsOutside(c: char)
    ensures Foreign(c) <==> !InAlphabet(c)
  {
    if InAlphabet(c) {
      assert c == Digit(Sextet(c));
    }
    if !Foreign(c) {
      var v :| 0 <= v < 64 && c == Digit(v);
      DigitInAlphabet(v);
    }
  }

  /** Which of the two errors: a foreign character or a length no encoding has, or else not the canonical encoding of anything. */
  lemma DecodingErrors(s: string)
    ensures Decoded(s) == Err(NotBase64Url) <==> s == "" || |s| % 4 == 1 || exists i :: 0 <= i < |s| && Foreign(s[i])
    ensures Decoded(s) == Err(TrailingBits) <==>
      s != "" && |s| % 4 != 1 && (forall i :: 0 <= i < |s| ==> !Foreign(s[i])) && forall value :: Encoded(value) != s
  {
    hide Encoded, Foreign, InAlphabet;
    forall c: char ensures Foreign(c) <==> !InAlphabet(c) {
      ForeignIsOutside(c);
    }
    WellFormedFails(s);
    hide Decoded;
    if s != "" && exists value :: Encoded(value) == s {
      EncodedNothing();
      var value :| Encoded(value) == s;
      DecodeInvertsEncode(s, value);
    }
    match Decoded(s) {
      case Ok(value) => DecodeInvertsEncode(s, value);
      case Err(NotBase64Url) =>
      case Err(TrailingBits) =>
    }
  }

  lemma EncodedNothing()
    ensures Encoded([]) == ""
  {
  }

  lemma WellFormedFails(s: string)
    ensures Decoded(s) == Err(NotBase64Url) <==> s == "" || |s| % 4 == 1 || exists i :: 0 <= i < |s| && !InAlphabet(s[i])
  {
    hide DecodeFrom;
    if WellFormed(s) {
      DecodeFromErrs(s, 0, 0);
    }
  }

  lemma {:induction false} DecodeFromErrs(s: string, acc: nat, bits: nat)
    requires AllDigits(s) && bits < 8
    ensures DecodeFrom(s, acc, bits) != Err(NotBase64Url)
  {
    hide Power;
    if s != [] {
      var sum, total := acc * 64 + Sextet(s[0]), bits + 6;
      if total < 8 {
        DecodeFromErrs(s[1..], sum, total);
      } else {
        DecodeFromErrs(s[1..], sum % Power(total - 8), total - 8);
      }
    }
  }
}
