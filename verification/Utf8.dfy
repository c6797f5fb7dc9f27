/**
 * UTF-8 validation of process output. The encoding is the one of RFC 3629, section 3;
 * the validator never decodes, it only looks at byte ranges.
 */
module Utf8 {

  type Byte = b: int | 0 <= b < 0x100

  /** A Unicode scalar value: any code point but the surrogates. */
  type Scalar = c: int | 0 <= c < 0xD800 || 0xE000 <= c < 0x11_0000

  function Encode(c: Scalar): (s: seq<Byte>)
    ensures 1 <= |s| <= 4
  {
    if c < 0x80 then [c]
    else if c < 0x800 then [0xC0 + c / 0x40, 0x80 + c % 0x40]
    else if c < 0x1_0000 then [0xE0 + c / 0x1000, 0x80 + c / 0x40 % 0x40, 0x80 + c % 0x40]
    else [0xF0 + c / 0x4_0000, 0x80 + c / 0x1000 % 0x40, 0x80 + c / 0x40 % 0x40, 0x80 + c % 0x40]
  }

  function Encoding(cs: seq<Scalar>): seq<Byte> {
    if cs == [] then [] else Encode(cs[0]) + Encoding(cs[1..])
  }

  ghost predicate IsUtf8(s: seq<Byte>) {
    exists cs :: Encoding(cs) == s
  }

  predicate IsTail(b: Byte) {
    0x80 <= b <= 0xBF
  }

  /** The number of bytes that must follow a lead byte, and the range of the first of them. */
  datatype Form = NotALead | Form(continuations: nat, secondMin: Byte, secondMax: Byte)

  function FormOf(lead: Byte): (f: Form)
    ensures f.Form? ==> f.continuations <= 3
  {
    if lead <= 0x7F then Form(0, 0x80, 0xBF)
    else if 0xC2 <= lead <= 0xDF then Form(1, 0x80, 0xBF)
    else if lead == 0xE0 then Form(2, 0xA0, 0xBF)
    else if lead == 0xED then Form(2, 0x80, 0x9F)
    else if 0xE1 <= lead <= 0xEF then Form(2, 0x80, 0xBF)
    else if lead == 0xF0 then Form(3, 0x90, 0xBF)
    else if 0xF1 <= lead <= 0xF3 then Form(3, 0x80, 0xBF)
    else if lead == 0xF4 then Form(3, 0x80, 0x8F)
    else NotALead
  }

  /** The string starts with the bytes of one character; n is their number. */
  predicate StartsCharacter(s: seq<Byte>, n: nat) {
    && s != []
    && FormOf(s[0]).Form?
    && n == FormOf(s[0]).continuations + 1
    && n <= |s|
    && (n > 1 ==> FormOf(s[0]).secondMin <= s[1] <= FormOf(s[0]).secondMax)
    && forall i :: 2 <= i < n ==> IsTail(s[i])
  }

  lemma EncodedStartsCharacter(c: Scalar, rest: seq<Byte>)
    ensures StartsCharacter(Encode(c) + rest, |Encode(c)|)
  {
    var s := Encode(c) + rest;
    assert s[0] == Encode(c)[0];
    if 0x1_0000 <= c {
      LeadOfFour(c);
    } else if 0x800 <= c {
      LeadOfThree(c);
    }
  }

  lemma LeadOfFour(c: Scalar)
    requires 0x1_0000 <= c
    ensures var f := FormOf(0xF0 + c / 0x4_0000);
      f.Form? && f.continuations == 3 && f.secondMin <= 0x80 + c / 0x1000 % 0x40 <= f.secondMax
  {
    assert c / 0x1000 == c / 0x4_0000 * 0x40 + c / 0x1000 % 0x40;
  }

  lemma LeadOfThree(c: Scalar)
    requires 0x800 <= c < 0x1_0000
    ensures var f := FormOf(0xE0 + c / 0x1000);
      f.Form? && f.continuations == 2 && f.secondMin <= 0x80 + c / 0x40 % 0x40 <= f.secondMax
  {
    assert c / 0x40 == c / 0x1000 * 0x40 + c / 0x40 % 0x40;
  }

  /** The number that the bytes of one character stand for. */
  function Decode(s: seq<Byte>): int
    requires 1 <= |s| <= 4
  {
    if |s| == 1 then s[0]
    else if |s| == 2 then (s[0] as int - 0xC0) * 0x40 + (s[1] as int - 0x80)
    else if |s| == 3 then ((s[0] as int - 0xE0) * 0x40 + (s[1] as int - 0x80)) * 0x40 + (s[2] as int - 0x80)
    else (((s[0] as int - 0xF0) * 0x40 + (s[1] as int - 0x80)) * 0x40 + (s[2] as int - 0x80)) * 0x40 + (s[3] as int - 0x80)
  }

  lemma DecodeInvertsEncode(c: Scalar)
    ensures Decode(Encode(c)) == c
  {
    if 0x800 <= c < 0x1_0000 {
      assert c / 0x40 == c / 0x1000 * 0x40 + c / 0x40 % 0x40;
    } else if 0x1_0000 <= c {
      assert c / 0x1000 == c / 0x4_0000 * 0x40 + c / 0x1000 % 0x40;
      assert c / 0x40 == c / 0x1000 * 0x40 + c / 0x40 % 0x40;
    }
  }

  /** The scalar value that the first n bytes encode. */
  lemma CharacterIsEncoded(s: seq<Byte>, n: nat) returns (c: Scalar)
    requires StartsCharacter(s, n)
    ensures Encode(c) == s[..n]
  {
    if n == 1 {
      c := s[0];
    } else if n == 2 {
      c := TwoBytes(s[0], s[1]);
    } else if n == 3 {
      assert IsTail(s[2]);
      c := ThreeBytes(s[0], s[1], s[2]);
    } else {
      assert IsTail(s[2]) && IsTail(s[3]);
      c := FourBytes(s[0], s[1], s[2], s[3]);
    }
  }

  lemma TwoBytes(a: int, b: int) returns (c: Scalar)
    requires 0xC2 <= a <= 0xDF && 0x80 <= b <= 0xBF
    ensures Encode(c) == [a, b]
  {
    c := (a - 0xC0) * 0x40 + (b - 0x80);
    Digits(a - 0xC0, b - 0x80);
  }

  lemma ThreeBytes(a: int, b: int, d: int) returns (c: Scalar)
    requires 0xE0 <= a <= 0xEF && FormOf(a).secondMin <= b <= FormOf(a).secondMax && 0x80 <= d <= 0xBF
    ensures Encode(c) == [a, b, d]
  {
    var high := (a - 0xE0) * 0x40 + (b - 0x80);
    c := high * 0x40 + (d - 0x80);
    Digits(high, d - 0x80);
    Digits(a - 0xE0, b - 0x80);
  }

  lemma FourBytes(a: int, b: int, d: int, e: int) returns (c: Scalar)
    requires 0xF0 <= a <= 0xF4 && FormOf(a).secondMin <= b <= FormOf(a).secondMax
    requires 0x80 <= d <= 0xBF && 0x80 <= e <= 0xBF
    ensures Encode(c) == [a, b, d, e]
  {
    var top := (a - 0xF0) * 0x40 + (b - 0x80);
    var high := top * 0x40 + (d - 0x80);
    c := high * 0x40 + (e - 0x80);
    Digits(high, e - 0x80);
    Digits(top, d - 0x80);
    Digits(a - 0xF0, b - 0x80);
  }

  lemma Digits(high: nat, low: nat)
    requires low < 0x40
    ensures (high * 0x40 + low) / 0x40 == high && (high * 0x40 + low) % 0x40 == low
    ensures (high * 0x40 + low) / 0x1000 == high / 0x40
    ensures (high * 0x40 + low) / 0x4_0000 == high / 0x1000
  {
  }

  /** Validity of a string is validity of what follows its first character. */
  lemma FirstCharacter(s: seq<Byte>, n: nat)
    requires StartsCharacter(s, n)
    ensures IsUtf8(s) <==> IsUtf8(s[n..])
  {
    if IsUtf8(s) {
      var cs :| Encoding(cs) == s;
      EncodedStartsCharacter(cs[0], Encoding(cs[1..]));
      assert s == Encode(cs[0]) + Encoding(cs[1..]);
      assert s[n..] == Encoding(cs[1..]);
    }
    if IsUtf8(s[n..]) {
      var cs :| Encoding(cs) == s[n..];
      var c := CharacterIsEncoded(s, n);
      assert ([c] + cs)[1..] == cs;
      assert Encoding([c] + cs) == s[..n] + s[n..] == s;
    }
  }

  lemma NoCharacter(s: seq<Byte>)
    requires s != [] && forall n :: 1 <= n <= 4 ==> !StartsCharacter(s, n)
    ensures !IsUtf8(s)
  {
    forall cs ensures Encoding(cs) != s {
      if cs != [] {
        EncodedStartsCharacter(cs[0], Encoding(cs[1..]));
      }
    }
  }

  method IsValidUtf8(value: seq<Byte>) returns (valid: bool)
    ensures valid <==> IsUtf8(value)
  {
    var index := 0;
    assert value[0..] == value;
    while index < |value|
      invariant 0 <= index <= |value|
      invariant IsUtf8(value) <==> IsUtf8(value[index..])
      decreases |value| - index
    {
      ghost var rest := value[index..];
      var lead := value[index];
      if lead <= 0x7F {
        FirstCharacter(rest, 1);
        assert rest[1..] == value[index + 1..];
        index := index + 1;
        continue;
      }
      var continuationCount := 0;
      var secondMin, secondMax := 0x80, 0xBF;
      if lead >= 0xC2 && lead <= 0xDF {
        continuationCount := 1;
      } else if lead == 0xE0 {
        continuationCount := 2;
        secondMin := 0xA0;
      } else if lead >= 0xE1 && lead <= 0xEC {
        continuationCount := 2;
      } else if lead == 0xED {
        continuationCount := 2;
        secondMax := 0x9F;
      } else if lead >= 0xEE && lead <= 0xEF {
        continuationCount := 2;
      } else if lead == 0xF0 {
        continuationCount := 3;
        secondMin := 0x90;
      } else if lead >= 0xF1 && lead <= 0xF3 {
        continuationCount := 3;
      } else if lead == 0xF4 {
        continuationCount := 3;
        secondMax := 0x8F;
      } else {
        NoCharacter(rest);
        return false;
      }
      assert FormOf(lead) == Form(continuationCount, secondMin, secondMax);
      if index + continuationCount >= |value| {
        NoCharacter(rest);
        return false;
      }
      var second := value[index + 1];
      assert rest[1] == second;
      if second < secondMin || second > secondMax {
        NoCharacter(rest);
        return false;
      }
      for offset := 2 to continuationCount + 1
        invariant forall i :: 2 <= i < offset ==> IsTail(rest[i])
      {
        var continuation := value[index + offset];
        if continuation < 0x80 || continuation > 0xBF {
          assert !IsTail(rest[offset]);
          NoCharacter(rest);
          return false;
        }
      }
      FirstCharacter(rest, continuationCount + 1);
      assert rest[continuationCount + 1..] == value[index + continuationCount + 1..];
      index := index + (continuationCount + 1);
    }
    assert Encoding([]) == value[index..];
    return true;
  }

  /** A string has one decoding. */
  lemma {:induction false} DecodingIsUnique(cs: seq<Scalar>, ds: seq<Scalar>)
    requires Encoding(cs) == Encoding(ds)
    ensures cs == ds
    decreases |cs|
  {
    if cs != [] && ds != [] {
      EncodedStartsCharacter(cs[0], Encoding(cs[1..]));
      EncodedStartsCharacter(ds[0], Encoding(ds[1..]));
      var n := |Encode(cs[0])|;
      assert n == |Encode(ds[0])|;
      assert Encode(cs[0]) == Encoding(cs)[..n] == Encode(ds[0]);
      DecodeInvertsEncode(cs[0]);
      DecodeInvertsEncode(ds[0]);
      assert Encoding(cs)[n..] == Encoding(cs[1..]) && Encoding(ds)[n..] == Encoding(ds[1..]);
      DecodingIsUnique(cs[1..], ds[1..]);
    }
  }

  // ---- Lead and tail bytes, whatever value they stand for ----

  predicate TwoByteForm(s: seq<Byte>) {
    |s| == 2 && 0xC0 <= s[0] <= 0xDF && IsTail(s[1])
  }

  predicate ThreeByteForm(s: seq<Byte>) {
    |s| == 3 && 0xE0 <= s[0] <= 0xEF && IsTail(s[1]) && IsTail(s[2])
  }

  predicate FourByteForm(s: seq<Byte>) {
    |s| == 4 && 0xF0 <= s[0] <= 0xF7 && IsTail(s[1]) && IsTail(s[2]) && IsTail(s[3])
  }

  /**
   * The lead and tail bytes of a form are accepted exactly if the value they stand for needs that
   * many bytes, is no surrogate, and is at most U+10FFFF, whatever follows them.
   */
  lemma FormsAreChecked(s: seq<Byte>, rest: seq<Byte>)
    requires TwoByteForm(s) || ThreeByteForm(s) || FourByteForm(s)
    ensures IsUtf8(s + rest) <==>
      && IsUtf8(rest)
      && (|s| == 2 ==> 0x80 <= Decode(s))
      && (|s| == 3 ==> 0x800 <= Decode(s) && !(0xD800 <= Decode(s) < 0xE000))
      && (|s| == 4 ==> 0x1_0000 <= Decode(s) < 0x11_0000)
  {
    hide IsUtf8;
    assert (s + rest)[|s|..] == rest;
    if StartsCharacter(s + rest, |s|) {
      FirstCharacter(s + rest, |s|);
    } else {
      NoCharacter(s + rest);
    }
  }
}
