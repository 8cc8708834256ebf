/** Base64 as in section 4 of RFC 4648: the grouping loops of the codec, and the round trips both ways. */
module Base64 {

  type byte = x: nat | x < 256

  const PAD: byte := 61

  // ---- Section 4 of RFC 4648 ----

  /** The alphabet: A-Z, a-z, 0-9, +, /, as character codes. */
  function Alphabet(d: nat): (c: byte)
    requires d < 64
  {
    if d < 26 then 65 + d
    else if d < 52 then 97 + (d - 26)
    else if d < 62 then 48 + (d - 52)
    else if d == 62 then 43
    else 47
  }

  predicate InAlphabet(c: byte) {
    65 <= c <= 90 || 97 <= c <= 122 || 48 <= c <= 57 || c == 43 || c == 47
  }

  function Index(c: byte): (d: nat)
    requires InAlphabet(c)
    ensures d < 64 && Alphabet(d) == c
  {
    if 65 <= c <= 90 then c - 65 else if 97 <= c <= 122 then c - 97 + 26 else if 48 <= c <= 57 then c - 48 + 52
    else if c == 43 then 62 else 63
  }

  lemma IndexOfAlphabet(d: nat)
    requires d < 64
    ensures InAlphabet(Alphabet(d)) && Index(Alphabet(d)) == d
  {
  }

  /** Three bytes concatenated to one 24-bit group. */
  function Group(a: byte, b: byte, c: byte): (g: nat)
    ensures g < 0x100_0000
  {
    a * 0x1_0000 + b * 0x100 + c
  }

  /** Digit `k` of the four 6-bit groups a 24-bit group is cut into. */
  function Digit(g: nat, k: nat): (d: nat)
    requires k < 4
    ensures d < 64
  {
    (if k == 0 then g / 0x4_0000 else if k == 1 then g / 0x1000 else if k == 2 then g / 0x40 else g) % 64
  }

  function Encoded(g: nat, k: nat): byte
    requires k < 4
  {
    Alphabet(Digit(g, k))
  }

  function Enc(s: seq<byte>): seq<byte> {
    if s == [] then []
    else if |s| == 1 then var g := Group(s[0], 0, 0); [Encoded(g, 0), Encoded(g, 1), PAD, PAD]
    else if |s| == 2 then var g := Group(s[0], s[1], 0); [Encoded(g, 0), Encoded(g, 1), Encoded(g, 2), PAD]
    else var g := Group(s[0], s[1], s[2]); [Encoded(g, 0), Encoded(g, 1), Encoded(g, 2), Encoded(g, 3)] + Enc(s[3..])
  }

  /** Four digits joined to a 24-bit group, cut into three bytes. */
  function Joined(a: nat, b: nat, c: nat, d: nat): (g: nat)
    requires a < 64 && b < 64 && c < 64 && d < 64
    ensures g < 0x100_0000
  {
    a * 0x4_0000 + b * 0x1000 + c * 0x40 + d
  }

  function Octet(g: nat, k: nat): byte
    requires k < 3
  {
    (if k == 0 then g / 0x1_0000 else if k == 1 then g / 0x100 else g) % 256
  }

  /** Digits are taken four at a time; n digits of an incomplete group stand for n - 1 bytes. */
  function DecDigits(v: seq<nat>): seq<byte>
    requires forall i :: 0 <= i < |v| ==> v[i] < 64
  {
    if |v| < 2 then []
    else if |v| == 2 then [Octet(Joined(v[0], v[1], 0, 0), 0)]
    else if |v| == 3 then var g := Joined(v[0], v[1], v[2], 0); [Octet(g, 0), Octet(g, 1)]
    else var g := Joined(v[0], v[1], v[2], v[3]); [Octet(g, 0), Octet(g, 1), Octet(g, 2)] + DecDigits(v[4..])
  }

  /** The digits before the first character outside the alphabet. */
  function Digits(t: seq<byte>): (v: seq<nat>)
    ensures forall i :: 0 <= i < |v| ==> v[i] < 64
  {
    if t == [] || !InAlphabet(t[0]) then [] else [Index(t[0])] + Digits(t[1..])
  }

  function Dec(t: seq<byte>): seq<byte> {
    DecDigits(Digits(t))
  }

  // ---- Cutting and joining groups ----

  lemma Quotient(x: nat, d: nat, q: nat, r: nat)
    requires d > 0 && x == q * d + r && r < d
    ensures x / d == q && x % d == r
  {
    var k: int := x / d - q;
    assert x == (x / d) * d + x % d;
    assert k * d == r - x % d;
    assert k >= 1 ==> k * d >= d;
    assert k <= -1 ==> k * d <= -1 * d;
  }

  /** The four digits of a group, by the bytes they come from. */
  lemma DigitsOfGroup(a: byte, b: byte, c: byte)
    ensures var g := Group(a, b, c);
            && Digit(g, 0) == a / 4 && Digit(g, 1) == (a % 4) * 16 + b / 16
            && Digit(g, 2) == (b % 16) * 4 + c / 64 && Digit(g, 3) == c % 64
  {
    var g := Group(a, b, c);
    Quotient(g, 0x4_0000, a / 4, (a % 4) * 0x1_0000 + b * 0x100 + c);
    Quotient(a / 4, 64, 0, a / 4);
    Quotient(g, 0x1000, a * 16 + b / 16, (b % 16) * 0x100 + c);
    Quotient(a * 16 + b / 16, 64, a / 4, (a % 4) * 16 + b / 16);
    Quotient(g, 0x40, a * 0x400 + b * 4 + c / 64, c % 64);
    Quotient(a * 0x400 + b * 4 + c / 64, 64, a * 16 + b / 16, (b % 16) * 4 + c / 64);
  }

  /** The three bytes of a group, by the digits they come from. */
  lemma OctetsOfJoined(a: nat, b: nat, c: nat, d: nat)
    requires a < 64 && b < 64 && c < 64 && d < 64
    ensures var g := Joined(a, b, c, d);
            && Octet(g, 0) == a * 4 + b / 16 && Octet(g, 1) == (b % 16) * 16 + c / 4 && Octet(g, 2) == (c % 4) * 64 + d
  {
    var g := Joined(a, b, c, d);
    Quotient(g, 0x1_0000, a * 4 + b / 16, (b % 16) * 0x1000 + c * 0x40 + d);
    Quotient(a * 4 + b / 16, 256, 0, a * 4 + b / 16);
    Quotient(g, 0x100, a * 0x400 + b * 16 + c / 4, (c % 4) * 64 + d);
    Quotient(a * 0x400 + b * 16 + c / 4, 256, a * 4 + b / 16, (b % 16) * 16 + c / 4);
    Quotient(g, 256, a * 0x400 + b * 16 + c / 4, (c % 4) * 64 + d);
  }

  // ---- Round trips ----

  lemma {:induction false} EncLength(s: seq<byte>)
    ensures |Enc(s)| == 4 * ((|s| + 2) / 3)
  {
    hide Encoded, Group;
    if |s| >= 3 {
      EncLength(s[3..]);
      assert (|s| + 2) / 3 == (|s| - 3 + 2) / 3 + 1;
    }
  }

  /** Cutting a group into digits and joining them again loses nothing. */
  lemma CutThenJoin(a: byte, b: byte, c: byte)
    ensures var g := Group(a, b, c); var j := Joined(Digit(g, 0), Digit(g, 1), Digit(g, 2), Digit(g, 3));
            Octet(j, 0) == a && Octet(j, 1) == b && Octet(j, 2) == c
  {
    hide Group, Digit, Joined, Octet;
    DigitsOfGroup(a, b, c);
    var g := Group(a, b, c);
    OctetsOfJoined(Digit(g, 0), Digit(g, 1), Digit(g, 2), Digit(g, 3));
    Recombine(a, b, c);
  }

  lemma Recombine(a: byte, b: byte, c: byte)
    ensures var p, q, r, t := a / 4, (a % 4) * 16 + b / 16, (b % 16) * 4 + c / 64, c % 64;
            p * 4 + q / 16 == a && (q % 16) * 16 + r / 4 == b && (r % 4) * 64 + t == c
  {
    Quotient((a % 4) * 16 + b / 16, 16, a % 4, b / 16);
    Quotient((b % 16) * 4 + c / 64, 4, b % 16, c / 64);
  }

  lemma DigitOfFirst(g: nat, k: nat, rest: seq<byte>)
    requires k < 4
    ensures Digits([Encoded(g, k)] + rest) == [Digit(g, k)] + Digits(rest)
  {
    hide Alphabet, Index;
    IndexOfAlphabet(Digit(g, k));
    assert ([Encoded(g, k)] + rest)[1..] == rest;
  }

  lemma DigitsOfTwo(g: nat, rest: seq<byte>)
    ensures Digits([Encoded(g, 0), Encoded(g, 1)] + rest) == [Digit(g, 0), Digit(g, 1)] + Digits(rest)
  {
    hide Encoded, Digit, Digits;
    assert [Encoded(g, 0), Encoded(g, 1)] + rest == [Encoded(g, 0)] + ([Encoded(g, 1)] + rest);
    DigitOfFirst(g, 0, [Encoded(g, 1)] + rest);
    DigitOfFirst(g, 1, rest);
  }

  lemma DigitsOfThree(g: nat, rest: seq<byte>)
    ensures Digits([Encoded(g, 0), Encoded(g, 1), Encoded(g, 2)] + rest) ==
            [Digit(g, 0), Digit(g, 1), Digit(g, 2)] + Digits(rest)
  {
    hide Encoded, Digit, Digits;
    assert [Encoded(g, 0), Encoded(g, 1), Encoded(g, 2)] + rest ==
           [Encoded(g, 0), Encoded(g, 1)] + ([Encoded(g, 2)] + rest);
    DigitsOfTwo(g, [Encoded(g, 2)] + rest);
    DigitOfFirst(g, 2, rest);
  }

  lemma DigitsOfFour(g: nat, rest: seq<byte>)
    ensures Digits([Encoded(g, 0), Encoded(g, 1), Encoded(g, 2), Encoded(g, 3)] + rest) ==
            [Digit(g, 0), Digit(g, 1), Digit(g, 2), Digit(g, 3)] + Digits(rest)
  {
    hide Encoded, Digit, Digits;
    assert [Encoded(g, 0), Encoded(g, 1), Encoded(g, 2), Encoded(g, 3)] + rest ==
           [Encoded(g, 0), Encoded(g, 1), Encoded(g, 2)] + ([Encoded(g, 3)] + rest);
    DigitsOfThree(g, [Encoded(g, 3)] + rest);
    DigitOfFirst(g, 3, rest);
  }

  lemma PadStops(rest: seq<byte>)
    requires rest != [] && rest[0] == PAD
    ensures Digits(rest) == []
  {
  }

  /** A digit group whose tail was filled with zero bytes. */
  lemma ZeroFill(a: byte, b: byte)
    ensures var g := Group(a, 0, 0); Octet(Joined(Digit(g, 0), Digit(g, 1), 0, 0), 0) == a
    ensures var g := Group(a, b, 0); var j := Joined(Digit(g, 0), Digit(g, 1), Digit(g, 2), 0);
            Octet(j, 0) == a && Octet(j, 1) == b
  {
    hide Group, Digit, Joined, Octet;
    DigitsOfGroup(a, 0, 0);
    DigitsOfGroup(a, b, 0);
    CutThenJoin(a, 0, 0);
    CutThenJoin(a, b, 0);
  }

  /** Decoding what was encoded gives the bytes back, for every byte string. */
  lemma {:induction false} RoundTrip(s: seq<byte>)
    ensures Dec(Enc(s)) == s
  {
    hide Encoded, Digit, Digits, Group, Joined, Octet, DecDigits;
    if |s| < 3 {
      RoundTripOfTail(s);
    } else {
      RoundTrip(s[3..]);
      RoundTripOfGroup(s[0], s[1], s[2], Enc(s[3..]));
      assert s == [s[0], s[1], s[2]] + s[3..];
    }
  }

  lemma RoundTripOfTail(s: seq<byte>)
    requires |s| < 3
    ensures Dec(Enc(s)) == s
  {
    hide Encoded, Digit, Digits, Group, Joined, Octet, Dec;
    if s == [] {
      DecOfNothing();
    } else if |s| == 1 {
      RoundTripOfOne(s[0]);
    } else {
      RoundTripOfTwo(s[0], s[1]);
    }
  }

  lemma DecOfNothing()
    ensures Dec([]) == []
  {
  }

  lemma RoundTripOfOne(a: byte)
    ensures var g := Group(a, 0, 0); Dec([Encoded(g, 0), Encoded(g, 1), PAD, PAD]) == [a]
  {
    hide Encoded, Digit, Digits, Group, Joined, Octet;
    var g := Group(a, 0, 0);
    assert [Encoded(g, 0), Encoded(g, 1), PAD, PAD] == [Encoded(g, 0), Encoded(g, 1)] + [PAD, PAD];
    DigitsOfTwo(g, [PAD, PAD]);
    PadStops([PAD, PAD]);
    ZeroFill(a, 0);
  }

  lemma RoundTripOfTwo(a: byte, b: byte)
    ensures var g := Group(a, b, 0); Dec([Encoded(g, 0), Encoded(g, 1), Encoded(g, 2), PAD]) == [a, b]
  {
    hide Encoded, Digit, Digits, Group, Joined, Octet;
    var g := Group(a, b, 0);
    assert [Encoded(g, 0), Encoded(g, 1), Encoded(g, 2), PAD] == [Encoded(g, 0), Encoded(g, 1), Encoded(g, 2)] + [PAD];
    DigitsOfThree(g, [PAD]);
    PadStops([PAD]);
    ZeroFill(a, b);
  }

  lemma RoundTripOfGroup(a: byte, b: byte, c: byte, rest: seq<byte>)
    ensures var g := Group(a, b, c);
            Dec([Encoded(g, 0), Encoded(g, 1), Encoded(g, 2), Encoded(g, 3)] + rest) == [a, b, c] + Dec(rest)
  {
    hide Encoded, Digit, Digits, Group, Joined, Octet;
    var g := Group(a, b, c);
    DigitsOfFour(g, rest);
    var v := [Digit(g, 0), Digit(g, 1), Digit(g, 2), Digit(g, 3)] + Digits(rest);
    assert v[4..] == Digits(rest);
    CutThenJoin(a, b, c);
  }

  lemma NoDigits()
    ensures Digits([]) == []
  {
  }

  /** Texts an encoder can produce: whole groups, padding only at the end, no stray bits before the padding. */
  predicate Canonical(t: seq<byte>) {
    if |t| < 4 then t == []
    else if InAlphabet(t[0]) && InAlphabet(t[1]) && InAlphabet(t[2]) && InAlphabet(t[3]) then Canonical(t[4..])
    else
      && |t| == 4 && InAlphabet(t[0]) && InAlphabet(t[1]) && t[3] == PAD
      && (if t[2] == PAD then Index(t[1]) % 16 == 0 else InAlphabet(t[2]) && Index(t[2]) % 4 == 0)
  }

  lemma {:induction false} EncIsCanonical(s: seq<byte>)
    ensures Canonical(Enc(s))
  {
    hide Alphabet, Index, Digit, Group;
    if |s| == 1 {
      var g := Group(s[0], 0, 0);
      IndexOfAlphabet(Digit(g, 0));
      IndexOfAlphabet(Digit(g, 1));
      DigitsOfGroup(s[0], 0, 0);
    } else if |s| == 2 {
      var g := Group(s[0], s[1], 0);
      IndexOfAlphabet(Digit(g, 0));
      IndexOfAlphabet(Digit(g, 1));
      IndexOfAlphabet(Digit(g, 2));
      DigitsOfGroup(s[0], s[1], 0);
    } else if |s| > 2 {
      var g := Group(s[0], s[1], s[2]);
      IndexOfAlphabet(Digit(g, 0));
      IndexOfAlphabet(Digit(g, 1));
      IndexOfAlphabet(Digit(g, 2));
      IndexOfAlphabet(Digit(g, 3));
      assert Enc(s)[4..] == Enc(s[3..]);
      EncIsCanonical(s[3..]);
    }
  }

  /** Joining digits and cutting the bytes again loses nothing. */
  lemma JoinThenCut(a: nat, b: nat, c: nat, d: nat)
    requires a < 64 && b < 64 && c < 64 && d < 64
    ensures var j := Joined(a, b, c, d); var g := Group(Octet(j, 0), Octet(j, 1), Octet(j, 2));
            Digit(g, 0) == a && Digit(g, 1) == b && Digit(g, 2) == c && Digit(g, 3) == d
    ensures c == d == 0 && b % 16 == 0 ==> var j := Joined(a, b, 0, 0); Octet(j, 1) == 0 && Octet(j, 2) == 0
    ensures d == 0 && c % 4 == 0 ==> var j := Joined(a, b, c, 0); Octet(j, 2) == 0
  {
    hide Group, Digit, Joined, Octet;
    OctetsOfJoined(a, b, c, d);
    var j := Joined(a, b, c, d);
    DigitsOfGroup(Octet(j, 0), Octet(j, 1), Octet(j, 2));
    Separate(a, b, c, d);
  }

  lemma Separate(a: nat, b: nat, c: nat, d: nat)
    requires a < 64 && b < 64 && c < 64 && d < 64
    ensures var p, q, r := a * 4 + b / 16, (b % 16) * 16 + c / 4, (c % 4) * 64 + d;
            p / 4 == a && (p % 4) * 16 + q / 16 == b && (q % 16) * 4 + r / 64 == c && r % 64 == d
  {
    Quotient(a * 4 + b / 16, 4, a, b / 16);
    Quotient((b % 16) * 16 + c / 4, 16, b % 16, c / 4);
    Quotient((c % 4) * 64 + d, 64, c % 4, d);
  }

  /** A canonical text survives decoding and encoding. */
  lemma {:induction false} Reencode(t: seq<byte>)
    requires Canonical(t)
    ensures Enc(Dec(t)) == t
    decreases |t|
  {
    hide Alphabet, Index, Digit, Group, Joined, Octet;
    if |t| >= 4 {
      DigitsUpTo(t);
      var a, b := Index(t[0]), Index(t[1]);
      if InAlphabet(t[2]) && InAlphabet(t[3]) {
        var c, d := Index(t[2]), Index(t[3]);
        JoinThenCut(a, b, c, d);
        Reencode(t[4..]);
        var j := Joined(a, b, c, d);
        assert Digits(t)[4..] == Digits(t[4..]);
        assert Dec(t) == [Octet(j, 0), Octet(j, 1), Octet(j, 2)] + Dec(t[4..]);
        assert Dec(t)[3..] == Dec(t[4..]);
        assert t == [t[0], t[1], t[2], t[3]] + t[4..];
      } else if t[2] == PAD {
        JoinThenCut(a, b, 0, 0);
        assert t == [t[0], t[1], PAD, PAD];
      } else {
        JoinThenCut(a, b, Index(t[2]), 0);
        assert t == [t[0], t[1], t[2], PAD];
      }
    } else {
      NoDigits();
    }
  }

  lemma DigitsStep(t: seq<byte>, k: nat)
    requires k < |t|
    ensures Digits(t[k..]) == if InAlphabet(t[k]) then [Index(t[k])] + Digits(t[k + 1..]) else []
  {
    hide Index, InAlphabet;
    assert t[k..][1..] == t[k + 1..];
  }

  lemma DigitsUpTo(t: seq<byte>)
    requires |t| >= 4 && InAlphabet(t[0]) && InAlphabet(t[1])
    ensures !InAlphabet(t[2]) ==> Digits(t) == [Index(t[0]), Index(t[1])]
    ensures InAlphabet(t[2]) && !InAlphabet(t[3]) ==> Digits(t) == [Index(t[0]), Index(t[1]), Index(t[2])]
    ensures InAlphabet(t[2]) && InAlphabet(t[3]) ==>
              Digits(t) == [Index(t[0]), Index(t[1]), Index(t[2]), Index(t[3])] + Digits(t[4..])
  {
    hide Index, InAlphabet, Digits;
    FirstTwoDigits(t);
    DigitsStep(t, 2);
    DigitsStep(t, 3);
  }

  lemma FirstTwoDigits(t: seq<byte>)
    requires |t| >= 2 && InAlphabet(t[0]) && InAlphabet(t[1])
    ensures Digits(t) == [Index(t[0]), Index(t[1])] + Digits(t[2..])
  {
    hide Index, InAlphabet, Digits;
    assert t[0..] == t;
    DigitsStep(t, 0);
    DigitsStep(t, 1);
  }

  /** Re-encoding a decoded text gives it back if and only if it is canonical. */
  lemma ReencodeExactly(t: seq<byte>)
    ensures Enc(Dec(t)) == t <==> Canonical(t)
  {
    EncIsCanonical(Dec(t));
    if Canonical(t) { Reencode(t); }
  }

  // ---- Literal texts ----

  /** The codes of the characters of a text. */
  function Codes(text: string): (r: seq<byte>)
    ensures |r| == |text|
  {
    seq(|text|, i requires 0 <= i < |text| => text[i] as int % 256)
  }

  lemma CodesOf(x: string, y: string)
    ensures Codes(x + y) == Codes(x) + Codes(y)
  {
  }

  lemma LetterIn(d: nat)
    requires d < 64
    ensures InAlphabet(Alphabet(d))
  {
  }

  /** What the end of an encoding looks like, by the number of bytes left over after whole groups. */
  predicate EndsRight(t: seq<byte>, left: nat) {
    var n := |t|;
    if left == 0 then forall i :: 0 <= i < n ==> InAlphabet(t[i])
    else
      && n >= 4 && (forall i :: 0 <= i < n - 2 ==> InAlphabet(t[i]))
      && (if left == 1 then t[n - 2..] == Codes("==") else InAlphabet(t[n - 2]) && t[n - 1..] == Codes("="))
  }

  lemma EndsAfter(a: byte, b: byte, c: byte, d: byte, t: seq<byte>, left: nat)
    requires EndsRight(t, left) && InAlphabet(a) && InAlphabet(b) && InAlphabet(c) && InAlphabet(d)
    ensures EndsRight([a, b, c, d] + t, left)
  {
    hide InAlphabet, Codes;
    var u := [a, b, c, d] + t;
    assert forall i :: 4 <= i < |u| ==> u[i] == t[i - 4];
    if left != 0 { assert u[|u| - 2..] == t[|t| - 2..] && u[|u| - 1..] == t[|t| - 1..]; }
  }

  lemma TailEndsRight(a: byte, b: byte)
    ensures EndsRight(Enc([a]), 1) && EndsRight(Enc([a, b]), 2)
  {
    hide Enc, Alphabet, InAlphabet;
    EncOfRemainder(a, b);
    LetterIn(a / 4);
    LetterIn((a % 4) * 16);
    LetterIn((a % 4) * 16 + b / 16);
    LetterIn((b % 16) * 4);
  }

  /** An encoding ends in "==" after one byte more than whole groups, in one "=" after two, and else in none. */
  lemma {:induction false} EndsInPadding(s: seq<byte>)
    ensures EndsRight(Enc(s), |s| % 3)
  {
    hide Enc, Alphabet, InAlphabet, EndsRight;
    if s == [] {
      NothingEnds();
    } else if |s| < 3 {
      TailEndsRight(s[0], s[|s| - 1]);
      assert s == if |s| == 1 then [s[0]] else [s[0], s[|s| - 1]];
    } else {
      EndsInPadding(s[3..]);
      assert s == [s[0], s[1], s[2]] + s[3..];
      EncOfGroup(s[0], s[1], s[2], s[3..]);
      LetterIn(s[0] / 4);
      LetterIn((s[0] % 4) * 16 + s[1] / 16);
      LetterIn((s[1] % 16) * 4 + s[2] / 64);
      LetterIn(s[2] % 64);
      EndsAfter(Alphabet(s[0] / 4), Alphabet((s[0] % 4) * 16 + s[1] / 16), Alphabet((s[1] % 16) * 4 + s[2] / 64),
                Alphabet(s[2] % 64), Enc(s[3..]), |s[3..]| % 3);
    }
  }

  lemma NothingEnds()
    ensures EndsRight(Enc([]), 0) && Enc([]) == []
  {
  }

  lemma VectorCodes()
    ensures Codes("") == [] && Codes("f") == [102] && Codes("fo") == [102, 111] && Codes("foo") == [102, 111, 111] + []
    ensures Codes("b") == [98] && Codes("ba") == [98, 97] && Codes("bar") == [98, 97, 114] + []
    ensures Codes("Zg==") == [90, 103, 61, 61] && Codes("Zm8=") == [90, 109, 56, 61]
    ensures Codes("Zm9v") == [90, 109, 57, 118] + []
    ensures Codes("Yg==") == [89, 103, 61, 61] && Codes("YmE=") == [89, 109, 69, 61]
    ensures Codes("YmFy") == [89, 109, 70, 121] + []
  {
  }

  lemma ShortVectors()
    ensures Enc(Codes("")) == Codes("") && Enc(Codes("f")) == Codes("Zg==")
    ensures Enc(Codes("fo")) == Codes("Zm8=") && Enc(Codes("foo")) == Codes("Zm9v")
  {
    hide Enc, Codes;
    VectorCodes();
    NothingEnds();
    EncOfRemainder(102, 111);
    EncOfGroup(102, 111, 111, []);
  }

  lemma TailVectors()
    ensures Enc(Codes("b")) == Codes("Yg==") && Enc(Codes("ba")) == Codes("YmE=") && Enc(Codes("bar")) == Codes("YmFy")
  {
    hide Enc, Codes;
    VectorCodes();
    NothingEnds();
    EncOfRemainder(98, 97);
    EncOfGroup(98, 97, 114, []);
  }

  lemma FooFirst(rest: string)
    ensures Enc(Codes("foo" + rest)) == Codes("Zm9v") + Enc(Codes(rest))
  {
    hide Enc, Codes;
    VectorCodes();
    CodesOf("foo", rest);
    assert [102, 111, 111] + [] + Codes(rest) == [102, 111, 111] + Codes(rest);
    EncOfGroup(102, 111, 111, Codes(rest));
  }

  /** The test vectors of section 10 of RFC 4648, both ways. */
  lemma TestVectors()
    ensures Enc(Codes("")) == Codes("") && Enc(Codes("f")) == Codes("Zg==")
    ensures Enc(Codes("fo")) == Codes("Zm8=") && Enc(Codes("foo")) == Codes("Zm9v")
    ensures Enc(Codes("foob")) == Codes("Zm9vYg==") && Enc(Codes("fooba")) == Codes("Zm9vYmE=")
    ensures Enc(Codes("foobar")) == Codes("Zm9vYmFy")
    ensures Dec(Codes("Zg==")) == Codes("f") && Dec(Codes("Zm8=")) == Codes("fo") && Dec(Codes("Zm9v")) == Codes("foo")
    ensures Dec(Codes("Zm9vYmFy")) == Codes("foobar")
  {
    hide Enc, Dec, Codes;
    ShortVectors();
    TailVectors();
    FooFirst("b");
    FooFirst("ba");
    FooFirst("bar");
    CodesOf("Zm9v", "Yg==");
    CodesOf("Zm9v", "YmE=");
    CodesOf("Zm9v", "YmFy");
    assert "foo" + "b" == "foob" && "foo" + "ba" == "fooba" && "foo" + "bar" == "foobar";
    assert "Zm9v" + "Yg==" == "Zm9vYg==" && "Zm9v" + "YmE=" == "Zm9vYmE=" && "Zm9v" + "YmFy" == "Zm9vYmFy";
    RoundTrip(Codes("f"));
    RoundTrip(Codes("fo"));
    RoundTrip(Codes("foo"));
    RoundTrip(Codes("foobar"));
  }

  // ---- The codec's loops ----

  const ROW0 := "ABCDEFGHIJKLMNOP"
  const ROW1 := "QRSTUVWXYZabcdef"
  const ROW2 := "ghijklmnopqrstuv"
  const ROW3 := "wxyz0123456789+/"

  /** The source's 64-entry table, sixteen characters a row. */
  function Table(l: nat): byte
    requires l < 64
  {
    (if l < 16 then ROW0[l]
     else if l < 32 then ROW1[l - 16]
     else if l < 48 then ROW2[l - 32]
     else ROW3[l - 48]) as int % 256
  }

  lemma TableIsAlphabet(l: nat)
    requires l < 64
    ensures Table(l) == Alphabet(l)
  {
    if l < 16 { FirstRow(l); } else if l < 32 { SecondRow(l - 16); }
    else if l < 48 { ThirdRow(l - 32); } else { FourthRow(l - 48); }
  }

  lemma FirstRow(l: nat)
    requires l < 16
    ensures ROW0[l] as int == Alphabet(l)
  {
  }

  lemma SecondRow(l: nat)
    requires l < 16
    ensures ROW1[l] as int == Alphabet(l + 16)
  {
  }

  lemma ThirdRow(l: nat)
    requires l < 16
    ensures ROW2[l] as int == Alphabet(l + 32)
  {
  }

  lemma FourthRow(l: nat)
    requires l < 16
    ensures ROW3[l] as int == Alphabet(l + 48)
  {
  }

  /** What a character becomes in the translation loop: its index, or itself when the table does not hold it. */
  function Value(c: byte): byte {
    if InAlphabet(c) then Index(c) else c
  }

  method Lookup(c: byte) returns (d: byte)
    ensures d == Value(c)
  {
    hide Table, Alphabet, Index, InAlphabet;
    var l := 0;
    while l < 64
      invariant 0 <= l <= 64
      invariant forall k :: 0 <= k < l ==> Alphabet(k) != c
    {
      TableIsAlphabet(l);
      if c == Table(l) {
        IndexOfAlphabet(l);
        return l;
      }
      l := l + 1;
    }
    return c;
  }

  method Translate(tmp: array<byte>)
    requires tmp.Length == 4
    modifies tmp
    ensures forall k :: 0 <= k < 4 ==> tmp[k] == Value(old(tmp[k]))
  {
    hide Value;
    var i := 0;
    while i < 4
      invariant 0 <= i <= 4
      invariant forall k :: 0 <= k < i ==> tmp[k] == Value(old(tmp[k]))
      invariant forall k :: i <= k < 4 ==> tmp[k] == old(tmp[k])
    {
      tmp[i] := Lookup(tmp[i]);
      i := i + 1;
    }
  }

  lemma EncOfGroup(a: byte, b: byte, c: byte, rest: seq<byte>)
    ensures Enc([a, b, c] + rest) ==
            [Alphabet(a / 4), Alphabet((a % 4) * 16 + b / 16), Alphabet((b % 16) * 4 + c / 64), Alphabet(c % 64)]
            + Enc(rest)
  {
    hide Alphabet, Digit, Group;
    DigitsOfGroup(a, b, c);
    assert ([a, b, c] + rest)[3..] == rest;
  }

  lemma EncOfRemainder(a: byte, b: byte)
    ensures Enc([a]) == [Alphabet(a / 4), Alphabet((a % 4) * 16), PAD, PAD]
    ensures Enc([a, b]) == [Alphabet(a / 4), Alphabet((a % 4) * 16 + b / 16), Alphabet((b % 16) * 4), PAD]
  {
    hide Alphabet, Digit, Group;
    DigitsOfGroup(a, 0, 0);
    DigitsOfGroup(a, b, 0);
  }

  /** Digits through the table, as the writing loops do. */
  function Letters(d: seq<byte>): (r: seq<byte>)
    requires forall k :: 0 <= k < |d| ==> d[k] < 64
    ensures |r| == |d| && forall k :: 0 <= k < |d| ==> r[k] == Alphabet(d[k])
  {
    if d == [] then [] else Letters(d[..|d| - 1]) + [Alphabet(d[|d| - 1])]
  }

  function Padding(n: nat): (r: seq<byte>)
    ensures |r| == n && forall k :: 0 <= k < n ==> r[k] == PAD
  {
    if n == 0 then [] else Padding(n - 1) + [PAD]
  }

  /** The writing loop: the first `n` digits of `buf` through the table. */
  method Emit(enc: seq<byte>, buf: array<byte>, n: nat) returns (r: seq<byte>)
    requires buf.Length == 4 && n <= 4 && forall k :: 0 <= k < 4 ==> buf[k] < 64
    ensures r == enc + Letters(buf[..n])
  {
    hide Alphabet, Table;
    r := enc;
    var i := 0;
    while i < n
      invariant 0 <= i <= n && r == enc + Letters(buf[..i])
    {
      TableIsAlphabet(buf[i]);
      r := r + [Table(buf[i])];
      i := i + 1;
      assert buf[..i][..i - 1] == buf[..i - 1];
    }
  }

  // The masks and shifts of the source, on bytes of eight bits.

  function HighSix(a: bv8): bv8 { (a & 0xfc) >> 2 }
  function LowTwo(a: bv8): bv8 { (a & 0x03) << 4 }
  function HighFour(a: bv8): bv8 { (a & 0xf0) >> 4 }
  function LowFour(a: bv8): bv8 { (a & 0x0f) << 2 }
  function HighTwo(a: bv8): bv8 { (a & 0xc0) >> 6 }
  function LowSix(a: bv8): bv8 { a & 0x3f }

  function AllSix(d: bv8): bv8 { d << 2 }
  function TopTwo(d: bv8): bv8 { (d & 0x30) >> 4 }
  function BottomFour(d: bv8): bv8 { (d & 0x0f) << 4 }
  function TopFour(d: bv8): bv8 { (d & 0x3c) >> 2 }
  function BottomTwo(d: bv8): bv8 { (d & 0x03) << 6 }

  function Plus(a: bv8, b: bv8): bv8 { a + b }

  function Number(a: bv8): byte { a as nat }

  lemma HighSixIs(a: bv8)
    ensures Number(HighSix(a)) == Number(a) / 4
  {
  }

  lemma LowSixIs(a: bv8)
    ensures Number(LowSix(a)) == Number(a) % 64
  {
  }

  lemma LowTwoIs(a: bv8)
    ensures Number(LowTwo(a)) == Number(a) % 4 * 16
  {
  }

  lemma HighFourIs(a: bv8)
    ensures Number(HighFour(a)) == Number(a) / 16
  {
  }

  lemma LowFourIs(a: bv8)
    ensures Number(LowFour(a)) == Number(a) % 16 * 4
  {
  }

  lemma HighTwoIs(a: bv8)
    ensures Number(HighTwo(a)) == Number(a) / 64
  {
  }

  lemma SixIs(d: bv8)
    requires d < 64
    ensures Number(AllSix(d)) == Number(d) * 4 && Number(TopTwo(d)) == Number(d) / 16
  {
  }

  lemma FourIs(d: bv8)
    requires d < 64
    ensures Number(BottomFour(d)) == Number(d) % 16 * 16 && Number(TopFour(d)) == Number(d) / 4
  {
  }

  lemma TwoIs(d: bv8)
    requires d < 64
    ensures Number(BottomTwo(d)) == Number(d) % 4 * 64
  {
  }

  // The parts that are added never share a bit, so nothing is carried or lost.

  predicate HighNibble(a: bv8) { a & 0x0f == 0 }
  predicate LowNibble(a: bv8) { a & 0xf0 == 0 }
  predicate UpperSix(a: bv8) { a & 0x03 == 0 }
  predicate LowerTwo(a: bv8) { a & 0xfc == 0 }
  predicate UpperTwo(a: bv8) { a & 0x3f == 0 }
  predicate LowerSix(a: bv8) { a & 0xc0 == 0 }


  lemma NibblesAdd(a: bv8, b: bv8)
    requires HighNibble(a) && LowNibble(b)
    ensures Number(Plus(a, b)) == Number(a) + Number(b)
  {
  }

  lemma SixAndTwoAdd(a: bv8, b: bv8)
    requires UpperSix(a) && LowerTwo(b)
    ensures Number(Plus(a, b)) == Number(a) + Number(b)
  {
  }

  lemma TwoAndSixAdd(a: bv8, b: bv8)
    requires UpperTwo(a) && LowerSix(b)
    ensures Number(Plus(a, b)) == Number(a) + Number(b)
  {
  }

  lemma EncodeParts(a: bv8, b: bv8)
    ensures HighNibble(LowTwo(a)) && LowNibble(HighFour(b)) && UpperSix(LowFour(a)) && LowerTwo(HighTwo(b))
  {
  }

  lemma DecodeParts(a: bv8, b: bv8)
    requires a < 64 && b < 64
    ensures UpperSix(AllSix(a)) && LowerTwo(TopTwo(b)) && HighNibble(BottomFour(a)) && LowNibble(TopFour(b))
    ensures UpperTwo(BottomTwo(a)) && LowerSix(b)
  {
  }

  /** A byte as eight bits. */
  function Bits(a: byte): (r: bv8)
    ensures r as nat == Number(r) == a
  {
    if a == 0 then 0 else OneMore(Bits(a - 1)); Bits(a - 1) + 1
  }

  lemma OneMore(x: bv8)
    requires x as nat < 255
    ensures (x + 1) as nat == x as nat + 1
  {
  }

  lemma Narrow(x: bv8)
    requires x as nat < 64
    ensures x < 64
  {
  }

  // The seven expressions of the source.

  function Cut0(a: byte): byte { Number(HighSix(Bits(a))) }
  function Cut1(a: byte, b: byte): byte { Number(Plus(LowTwo(Bits(a)), HighFour(Bits(b)))) }
  function Cut2(b: byte, c: byte): byte { Number(Plus(LowFour(Bits(b)), HighTwo(Bits(c)))) }
  function Cut3(c: byte): byte { Number(LowSix(Bits(c))) }

  function Join0(a: byte, b: byte): byte { Number(Plus(AllSix(Bits(a)), TopTwo(Bits(b)))) }
  function Join1(b: byte, c: byte): byte { Number(Plus(BottomFour(Bits(b)), TopFour(Bits(c)))) }
  function Join2(c: byte, d: byte): byte { Number(Plus(BottomTwo(Bits(c)), Bits(d))) }

  /** The masks, shifts and sums of the encoder. */
  lemma EncodeMasks(a: byte, b: byte, c: byte)
    ensures Cut0(a) == a / 4 && Cut1(a, b) == (a % 4) * 16 + b / 16
    ensures Cut2(b, c) == (b % 16) * 4 + c / 64 && Cut3(c) == c % 64
  {
    hide HighSix, LowTwo, HighFour, LowFour, HighTwo, LowSix, Plus, Bits, Number, HighNibble, LowNibble,
         UpperSix, LowerTwo;
    HighSixIs(Bits(a));
    LowTwoIs(Bits(a));
    HighFourIs(Bits(b));
    LowFourIs(Bits(b));
    HighTwoIs(Bits(c));
    LowSixIs(Bits(c));
    EncodeParts(Bits(a), Bits(b));
    EncodeParts(Bits(b), Bits(c));
    NibblesAdd(LowTwo(Bits(a)), HighFour(Bits(b)));
    SixAndTwoAdd(LowFour(Bits(b)), HighTwo(Bits(c)));
  }

  /** The masks, shifts and sums of the decoder. */
  lemma DecodeMasks(a: byte, b: byte, c: byte, d: byte)
    requires a < 64 && b < 64 && c < 64 && d < 64
    ensures Join0(a, b) == a * 4 + b / 16 && Join1(b, c) == (b % 16) * 16 + c / 4 && Join2(c, d) == (c % 4) * 64 + d
  {
    hide AllSix, TopTwo, BottomFour, TopFour, BottomTwo, Plus, Bits, Number;
    hide HighNibble, LowNibble, UpperSix, LowerTwo, UpperTwo, LowerSix;
    Narrow(Bits(a));
    Narrow(Bits(b));
    Narrow(Bits(c));
    Narrow(Bits(d));
    SixIs(Bits(a));
    SixIs(Bits(b));
    FourIs(Bits(b));
    FourIs(Bits(c));
    TwoIs(Bits(c));
    DecodeParts(Bits(a), Bits(b));
    DecodeParts(Bits(b), Bits(c));
    DecodeParts(Bits(c), Bits(d));
    SixAndTwoAdd(AllSix(Bits(a)), TopTwo(Bits(b)));
    NibblesAdd(BottomFour(Bits(b)), TopFour(Bits(c)));
    TwoAndSixAdd(BottomTwo(Bits(c)), Bits(d));
  }

  /** The four digits three bytes are cut into. */
  method Split(tmp: array<byte>, buf: array<byte>)
    requires tmp.Length == 3 && buf.Length == 4 && tmp != buf
    modifies buf
    ensures buf[..] == [tmp[0] / 4, (tmp[0] % 4) * 16 + tmp[1] / 16, (tmp[1] % 16) * 4 + tmp[2] / 64, tmp[2] % 64]
    ensures forall k :: 0 <= k < 4 ==> buf[k] < 64
  {
    hide Cut0, Cut1, Cut2, Cut3;
    EncodeMasks(tmp[0], tmp[1], tmp[2]);
    buf[0] := Cut0(tmp[0]);
    buf[1] := Cut1(tmp[0], tmp[1]);
    buf[2] := Cut2(tmp[1], tmp[2]);
    buf[3] := Cut3(tmp[2]);
  }

  method EncodeGroup(enc: seq<byte>, tmp: array<byte>, buf: array<byte>, ghost rest: seq<byte>) returns (r: seq<byte>)
    requires tmp.Length == 3 && buf.Length == 4 && tmp != buf
    modifies buf
    ensures r + Enc(rest) == enc + Enc(tmp[..] + rest)
  {
    hide Alphabet, Enc;
    Split(tmp, buf);
    assert tmp[..] == [tmp[0], tmp[1], tmp[2]];
    EncOfGroup(tmp[0], tmp[1], tmp[2], rest);
    r := Emit(enc, buf, 4);
    assert Letters(buf[..4]) ==
           [Alphabet(buf[..][0]), Alphabet(buf[..][1]), Alphabet(buf[..][2]), Alphabet(buf[..][3])];
  }

  lemma NextTaken(taken: seq<byte>, src: seq<byte>, j: nat)
    requires j < |src|
    ensures (taken + [src[j]]) + src[j + 1..] == taken + src[j..]
  {
    assert src[j..] == [src[j]] + src[j + 1..];
  }

  lemma NothingTaken(src: seq<byte>)
    ensures [] + src == src
  {
  }

  /** b64_encode. */
  method Encode(src: seq<byte>) returns (enc: seq<byte>)
    ensures enc == Enc(src)
  {
    hide Enc;
    var i, j := 0, 0;
    var tmp, buf := new byte[3], new byte[4];
    enc := [];
    assert src[0..] == src;
    NothingTaken(src);
    while j < |src|
      invariant 0 <= i < 3 && 0 <= j <= |src|
      invariant enc + Enc(tmp[..i] + src[j..]) == Enc(src)
    {
      ghost var taken := tmp[..i];
      NextTaken(taken, src, j);
      tmp[i] := src[j];
      assert tmp[..i + 1] == taken + [src[j]];
      i, j := i + 1, j + 1;
      if i == 3 {
        assert tmp[..] == tmp[..3];
        enc := EncodeGroup(enc, tmp, buf, src[j..]);
        i := 0;
        NothingTaken(src[j..]);
      }
    }
    assert src[j..] == [] && tmp[..i] + [] == tmp[..i];
    if i > 0 {
      enc := EncodeRemainder(enc, tmp, buf, i);
    } else {
      EncOfNothing();
    }
  }

  lemma EncOfNothing()
    ensures Enc([]) == []
  {
  }

  method EncodeRemainder(enc: seq<byte>, tmp: array<byte>, buf: array<byte>, n: nat) returns (r: seq<byte>)
    requires tmp.Length == 3 && buf.Length == 4 && tmp != buf && 0 < n < 3
    modifies tmp, buf
    ensures r == enc + Enc(old(tmp[..n]))
  {
    hide Alphabet, Enc;
    ghost var bytes := tmp[..n];
    var j, i := n, n;
    while j < 3
      invariant n <= j <= 3 && tmp[..n] == bytes && forall k :: n <= k < j ==> tmp[k] == 0
    {
      tmp[j] := 0;
      j := j + 1;
    }
    EncOfRemainder(tmp[0], tmp[1]);
    assert bytes == if n == 1 then [tmp[0]] else [tmp[0], tmp[1]];
    Split(tmp, buf);
    assert forall k :: 0 <= k < 4 ==> buf[k] == buf[..][k];
    r := Emit(enc, buf, i + 1);
    ghost var written := Letters(buf[..n + 1]);
    assert r == enc + written + Padding(0);
    while i < 3
      invariant n <= i <= 3 && r == enc + written + Padding(i - n)
    {
      r := r + [PAD];
      i := i + 1;
    }
    assert written + Padding(3 - n) == Enc(bytes);
  }

  lemma DecOfGroup(t: seq<byte>)
    requires |t| >= 4 && InAlphabet(t[0]) && InAlphabet(t[1]) && InAlphabet(t[2]) && InAlphabet(t[3])
    ensures var a, b, c, d := Index(t[0]), Index(t[1]), Index(t[2]), Index(t[3]);
            Dec(t) == [a * 4 + b / 16, (b % 16) * 16 + c / 4, (c % 4) * 64 + d] + Dec(t[4..])
  {
    hide InAlphabet, Index, Digits, Joined, Octet;
    DigitsUpTo(t);
    var a, b, c, d := Index(t[0]), Index(t[1]), Index(t[2]), Index(t[3]);
    OctetsOfJoined(a, b, c, d);
    assert Digits(t)[4..] == Digits(t[4..]);
  }

  /** A text that leaves the alphabet, or ends, after `n` characters. */
  lemma DecOfRemainder(t: seq<byte>, n: nat)
    requires n < 4 && n <= |t| && (n < |t| ==> !InAlphabet(t[n]))
    requires forall k :: 0 <= k < n ==> InAlphabet(t[k])
    ensures n < 2 ==> Dec(t) == []
    ensures n == 2 ==> var a, b := Index(t[0]), Index(t[1]); Dec(t) == [a * 4 + b / 16]
    ensures n == 3 ==> var a, b, c := Index(t[0]), Index(t[1]), Index(t[2]);
                       Dec(t) == [a * 4 + b / 16, (b % 16) * 16 + c / 4]
  {
    hide InAlphabet, Index, Digits, Joined, Octet;
    assert t[0..] == t && t[|t|..] == [];
    NoDigits();
    if 0 < |t| { DigitsStep(t, 0); }
    if 1 < |t| { DigitsStep(t, 1); }
    if 2 < |t| { DigitsStep(t, 2); }
    if 3 < |t| { DigitsStep(t, 3); }
    if n == 2 { OctetsOfJoined(Index(t[0]), Index(t[1]), 0, 0); }
    if n == 3 { OctetsOfJoined(Index(t[0]), Index(t[1]), Index(t[2]), 0); }
  }

  /** The three bytes four table indices stand for. */
  method Combine(tmp: array<byte>, buf: array<byte>)
    requires tmp.Length == 4 && buf.Length == 3 && tmp != buf
    requires forall k :: 0 <= k < 4 ==> tmp[k] < 64
    modifies buf
    ensures buf[..] == [tmp[0] * 4 + tmp[1] / 16, (tmp[1] % 16) * 16 + tmp[2] / 4, (tmp[2] % 4) * 64 + tmp[3]]
  {
    hide Join0, Join1, Join2;
    DecodeMasks(tmp[0], tmp[1], tmp[2], tmp[3]);
    buf[0] := Join0(tmp[0], tmp[1]);
    buf[1] := Join1(tmp[1], tmp[2]);
    buf[2] := Join2(tmp[2], tmp[3]);
  }

  method DecodeGroup(dec: seq<byte>, tmp: array<byte>, buf: array<byte>, ghost rest: seq<byte>) returns (r: seq<byte>)
    requires tmp.Length == 4 && buf.Length == 3 && tmp != buf
    requires forall k :: 0 <= k < 4 ==> InAlphabet(tmp[k])
    modifies tmp, buf
    ensures r + Dec(rest) == dec + Dec(old(tmp[..]) + rest)
  {
    hide Dec, InAlphabet, Index;
    ghost var t := tmp[..] + rest;
    DecOfGroup(t);
    assert t[4..] == rest;
    Translate(tmp);
    Combine(tmp, buf);
    r := dec + buf[..];
  }

  /** b64_decode_ex, including its early stop at padding or at a character outside the alphabet. */
  method Decode(src: seq<byte>) returns (dec: seq<byte>)
    ensures dec == Dec(src)
  {
    hide Dec, InAlphabet, Index;
    var i, j := 0, 0;
    var tmp, buf := new byte[4], new byte[3];
    dec := [];
    assert src[0..] == src;
    NothingTaken(src);
    while j < |src| && src[j] != PAD && InAlphabet(src[j])
      invariant 0 <= i < 4 && 0 <= j <= |src|
      invariant forall k :: 0 <= k < i ==> InAlphabet(tmp[k])
      invariant dec + Dec(tmp[..i] + src[j..]) == Dec(src)
    {
      ghost var taken := tmp[..i];
      NextTaken(taken, src, j);
      tmp[i] := src[j];
      assert tmp[..i + 1] == taken + [src[j]];
      i, j := i + 1, j + 1;
      if i == 4 {
        assert tmp[..] == tmp[..4];
        dec := DecodeGroup(dec, tmp, buf, src[j..]);
        i := 0;
        NothingTaken(src[j..]);
      }
    }
    PadIsOutside();
    StopsHere(tmp[..i], src[j..]);
    if i > 0 {
      dec := DecodeRemainder(dec, tmp, buf, i);
    } else {
      DecOfNothing();
    }
  }

  /** What follows the first character outside the alphabet does not matter. */
  lemma StopsHere(t: seq<byte>, rest: seq<byte>)
    requires |t| < 4 && (rest == [] || !InAlphabet(rest[0])) && forall k :: 0 <= k < |t| ==> InAlphabet(t[k])
    ensures Dec(t + rest) == Dec(t)
  {
    hide Dec, InAlphabet, Index;
    DecOfRemainder(t, |t|);
    DecOfRemainder(t + rest, |t|);
  }

  lemma PadIsOutside()
    ensures !InAlphabet(PAD)
  {
  }

  method DecodeRemainder(dec: seq<byte>, tmp: array<byte>, buf: array<byte>, n: nat) returns (r: seq<byte>)
    requires tmp.Length == 4 && buf.Length == 3 && tmp != buf && 0 < n < 4
    requires forall k :: 0 <= k < n ==> InAlphabet(tmp[k])
    modifies tmp, buf
    ensures r == dec + Dec(old(tmp[..n]))
  {
    hide Dec, InAlphabet, Index;
    ghost var chars := tmp[..n];
    DecOfRemainder(chars, n);
    var j := n;
    while j < 4
      invariant n <= j <= 4 && tmp[..n] == chars && forall k :: n <= k < j ==> tmp[k] == 0
    {
      tmp[j] := 0;
      j := j + 1;
    }
    NulIsOutside();
    Translate(tmp);
    Combine(tmp, buf);
    r := dec;
    j := 0;
    while j < n - 1
      invariant 0 <= j <= n - 1 && r == dec + buf[..j]
    {
      r := r + [buf[j]];
      j := j + 1;
    }
  }

  lemma NulIsOutside()
    ensures !InAlphabet(0)
  {
  }
}
