/** The bit-by-bit Base64 encoder of the SMTP client against section 4 of RFC 4648. */
module Base64 {
  import opened Common

  predicate Bytes(s: string) {
    forall k :: 0 <= k < |s| ==> s[k] < 256 as char
  }

  // ----- Section 4 of RFC 4648 -----

  function Table(v: nat): char
    requires v < 64
  {
    if v < 26 then (65 + v) as char
    else if v < 52 then (97 + v - 26) as char
    else if v < 62 then (48 + v - 52) as char
    else if v == 62 then '+'
    else '/'
  }

  function Index(c: char): (v: Option<nat>)
    ensures v.Some? ==> v.value < 64
  {
    if 'A' <= c <= 'Z' then Some(c as nat - 65)
    else if 'a' <= c <= 'z' then Some(c as nat - 97 + 26)
    else if '0' <= c <= '9' then Some(c as nat - 48 + 52)
    else if c == '+' then Some(62)
    else if c == '/' then Some(63)
    else None
  }

  /** Three bytes in four characters. */
  function Quad(a: nat, b: nat, c: nat): (q: string)
    requires a < 256 && b < 256 && c < 256
    ensures |q| == 4
  {
    [Table(a / 4), Table(a % 4 * 16 + b / 16), Table(b % 16 * 4 + c / 64), Table(c % 64)]
  }

  /** Groups of three; a last group of one or two bytes is padded. */
  function Standard(s: string): string
    requires Bytes(s)
    decreases |s|
  {
    if s == "" then ""
    else if |s| == 1 then Quad(s[0] as nat, 0, 0)[..2] + "=="
    else if |s| == 2 then Quad(s[0] as nat, s[1] as nat, 0)[..3] + "="
    else Quad(s[0] as nat, s[1] as nat, s[2] as nat) + Standard(s[3..])
  }

  function Decode(t: string): Option<string>
    decreases |t|
  {
    if t == "" then Some("")
    else if |t| < 4 then None
    else
      match (Index(t[0]), Index(t[1]))
      case (Some(x), Some(y)) =>
        var first := (x * 4 + y / 16) as char;
        if |t| == 4 && t[2] == '=' && t[3] == '=' then if y % 16 == 0 then Some([first]) else None
        else
          (match Index(t[2])
           case None => None
           case Some(z) =>
             var second := (y % 16 * 16 + z / 4) as char;
             if |t| == 4 && t[3] == '=' then if z % 4 == 0 then Some([first, second]) else None
             else
               match (Index(t[3]), Decode(t[4..]))
               case (Some(w), Some(rest)) => Some([first, second, (z % 4 * 64 + w) as char] + rest)
               case _ => None)
      case _ => None
  }

  /** The alphabet is the one of the standard: capital letters, small letters, digits, plus and slash. */
  lemma Alphabet()
    ensures Table(0) == 'A' && Table(25) == 'Z' && Table(26) == 'a' && Table(51) == 'z'
    ensures Table(52) == '0' && Table(61) == '9' && Table(62) == '+' && Table(63) == '/'
    ensures forall v :: 0 <= v < 61 && v != 25 && v != 51 ==> Table(v + 1) as nat == Table(v) as nat + 1
  {
  }

  /** One of its test vectors. */
  lemma TestVector()
    ensures Bytes("foob") && Standard("foob") == "Zm9vYg=="
  {
    assert "foob"[3..] == "b";
    assert Standard("b") == "Yg==";
    assert Standard("foob") == Quad(102, 111, 111) + Standard("foob"[3..]);
  }

  lemma IndexOfTable(v: nat)
    requires v < 64
    ensures Index(Table(v)) == Some(v)
  {
  }

  /** Eight bits from six, two, four and six again. */
  lemma Regrouped(a: nat, b: nat, c: nat)
    requires a < 256 && b < 256 && c < 256
    ensures var x, y, z, w := a / 4, a % 4 * 16 + b / 16, b % 16 * 4 + c / 64, c % 64;
            && x < 64 && y < 64 && z < 64 && w < 64
            && x * 4 + y / 16 == a && y % 16 * 16 + z / 4 == b && z % 4 * 64 + w == c
  {
  }

  /** One group of four characters without padding. */
  lemma DecodeGroup(x: nat, y: nat, z: nat, w: nat, rest: string)
    requires x < 64 && y < 64 && z < 64 && w < 64
    ensures Decode([Table(x), Table(y), Table(z), Table(w)] + rest) ==
            match Decode(rest) {
              case None => None
              case Some(s) => Some([(x * 4 + y / 16) as char, (y % 16 * 16 + z / 4) as char,
                              (z % 4 * 64 + w) as char] + s)
            }
  {
    hide Table, Index;
    var t := [Table(x), Table(y), Table(z), Table(w)] + rest;
    IndexOfTable(x);
    IndexOfTable(y);
    IndexOfTable(z);
    IndexOfTable(w);
    NoPadding();
    assert t[4..] == rest;
    assert t[0] == Table(x) && t[1] == Table(y) && t[2] == Table(z) && t[3] == Table(w);
    assert t[2] != '=' && t[3] != '=';
  }

  lemma NoPadding()
    ensures Index('=') == None
  {
  }

  lemma DecodeQuad(a: nat, b: nat, c: nat, rest: string)
    requires a < 256 && b < 256 && c < 256
    ensures Decode(Quad(a, b, c) + rest) ==
            match Decode(rest) { case None => None case Some(s) => Some([a as char, b as char, c as char] + s) }
  {
    hide Decode, Table;
    Regrouped(a, b, c);
    DecodeGroup(a / 4, a % 4 * 16 + b / 16, b % 16 * 4 + c / 64, c % 64, rest);
  }

  lemma {:induction false} DecodeStandard(s: string)
    requires Bytes(s)
    ensures Decode(Standard(s)) == Some(s)
    decreases |s|
  {
    hide Decode, Quad, Table;
    if |s| >= 3 {
      DecodeQuad(s[0] as nat, s[1] as nat, s[2] as nat, Standard(s[3..]));
      DecodeStandard(s[3..]);
      assert s == [s[0], s[1], s[2]] + s[3..];
    } else if |s| == 1 {
      DecodeOne(s[0] as nat);
      assert s == [s[0]];
    } else if |s| == 2 {
      DecodeTwo(s[0] as nat, s[1] as nat);
      assert s == [s[0], s[1]];
    } else {
      assert Decode("") == Some("") by { DecodeNothing(); }
    }
  }

  lemma DecodeNothing()
    ensures Decode("") == Some("")
  {
  }

  lemma DecodeOne(a: nat)
    requires a < 256
    ensures Decode(Quad(a, 0, 0)[..2] + "==") == Some([a as char])
  {
  }

  lemma DecodeTwo(a: nat, b: nat)
    requires a < 256 && b < 256
    ensures Decode(Quad(a, b, 0)[..3] + "=") == Some([a as char, b as char])
  {
    hide Table, Index;
    var x, y, z := a / 4, a % 4 * 16 + b / 16, b % 16 * 4;
    Regrouped(a, b, 0);
    DecodePadded(x, y, z);
    assert b % 16 * 4 + 0 / 64 == z;
    assert Quad(a, b, 0)[..3] + "=" == [Table(x), Table(y), Table(z), '='];
  }

  lemma DecodePadded(x: nat, y: nat, z: nat)
    requires x < 64 && y < 64 && z < 64 && z % 4 == 0
    ensures Decode([Table(x), Table(y), Table(z), '=']) ==
            Some([(x * 4 + y / 16) as char, (y % 16 * 16 + z / 4) as char])
  {
    hide Table, Index;
    IndexOfTable(x);
    IndexOfTable(y);
    IndexOfTable(z);
    NoPadding();
  }

  // ----- What the client's encoder makes -----

  /** The standard encoding, and a group too many after a whole number of groups. */
  function Encoded(s: string): string
    requires Bytes(s)
  {
    Standard(s) + if |s| % 3 == 0 then "A===" else ""
  }

  /** A standard decoder gets the text back if its length is not a multiple of three, and otherwise
      nothing. */
  lemma DecodeEncoded(s: string)
    requires Bytes(s)
    ensures Decode(Encoded(s)) == if |s| % 3 != 0 then Some(s) else None
  {
    if |s| % 3 == 0 {
      NotDecoded(s);
    } else {
      DecodeStandard(s);
      assert Encoded(s) == Standard(s);
    }
  }

  lemma {:induction false} NotDecoded(s: string)
    requires Bytes(s) && |s| % 3 == 0
    ensures Decode(Standard(s) + "A===") == None
    decreases |s|
  {
    hide Decode, Quad;
    if s == "" {
      assert Standard(s) + "A===" == "A===";
      LonePaddingFails();
    } else {
      NotDecoded(s[3..]);
      DecodeQuad(s[0] as nat, s[1] as nat, s[2] as nat, Standard(s[3..]) + "A===");
      assert Standard(s) + "A===" == Quad(s[0] as nat, s[1] as nat, s[2] as nat) + (Standard(s[3..]) + "A===");
    }
  }

  lemma LonePaddingFails()
    ensures Decode("A===") == None
  {
  }

  // ----- Bit by bit -----

  function Pow2(j: nat): (p: nat)
    ensures p > 0
  {
    if j == 0 then 1 else 2 * Pow2(j - 1)
  }

  function ShiftRight(b: nat, j: nat): nat {
    if j == 0 then b else ShiftRight(b, j - 1) / 2
  }

  /** Bit `n` of the text, counted from the first byte's highest; zero after the end. */
  function BitAt(s: string, n: nat): (bit: nat)
    ensures bit <= 1
  {
    if n / 8 < |s| then ShiftRight(s[n / 8] as nat, 7 - n % 8) % 2 else 0
  }

  /** The number made of `r` bits from bit `n`. */
  function Value(s: string, n: nat, r: nat): (v: nat)
    ensures v < Pow2(r)
  {
    if r == 0 then 0 else 2 * Value(s, n, r - 1) + BitAt(s, n + r - 1)
  }

  function Sextet(s: string, k: nat): (v: nat)
    ensures v < 64
  {
    assert Pow2(6) == 64 by { assert Pow2(3) == 8; }
    Value(s, 6 * k, 6)
  }

  lemma SextetBits(s: string, k: nat)
    ensures var n := 6 * k;
            Sextet(s, k) == 32 * BitAt(s, n) + 16 * BitAt(s, n + 1) + 8 * BitAt(s, n + 2) + 4 * BitAt(s, n + 3)
                   + 2 * BitAt(s, n + 4) + BitAt(s, n + 5)
  {
    hide BitAt;
    var n := 6 * k;
    assert Value(s, n, 3) ==
           4 * BitAt(s, n) + 2 * BitAt(s, n + 1) + BitAt(s, n + 2) by { assert Value(s, n, 1) == BitAt(s, n); }
    assert Value(s, n, 5) == 4 * Value(s, n, 3) + 2 * BitAt(s, n + 3) + BitAt(s, n + 4);
  }

  function ByteAt(s: string, i: nat): nat {
    if i < |s| then s[i] as nat else 0
  }

  lemma ByteIsSmall(s: string, i: nat)
    requires Bytes(s)
    ensures ByteAt(s, i) < 256
  {
  }

  lemma BitOf(s: string, i: nat, j: nat)
    requires j < 8
    ensures BitAt(s, 8 * i + 7 - j) == ShiftRight(ByteAt(s, i), j) % 2
  {
    var n := 8 * i + 7 - j;
    assert n / 8 == i && n % 8 == 7 - j;
    if i >= |s| {
      ZeroShifted(j);
    }
  }

  lemma {:induction false} ZeroShifted(j: nat)
    ensures ShiftRight(0, j) == 0
  {
    if j > 0 {
      ZeroShifted(j - 1);
    }
  }

  lemma Shifts(a: nat)
    ensures var h := (j: nat) => ShiftRight(a, j);
            h(0) == a && h(1) == a / 2 && h(2) == h(1) / 2 && h(3) == h(2) / 2 && h(4) == h(3) / 2
              && h(5) == h(4) / 2 && h(6) == h(5) / 2 && h(7) == h(6) / 2
  {
  }

  /** The eight bits of a byte as six and two, four and four, two and six. */
  lemma Halves(a: nat)
    requires a < 256
    ensures var b := (j: nat) => ShiftRight(a, j) % 2;
            && a / 4 == 32 * b(7) + 16 * b(6) + 8 * b(5) + 4 * b(4) + 2 * b(3) + b(2)
            && a % 4 == 2 * b(1) + b(0)
            && a / 16 == 8 * b(7) + 4 * b(6) + 2 * b(5) + b(4)
            && a % 16 == 8 * b(3) + 4 * b(2) + 2 * b(1) + b(0)
            && a / 64 == 2 * b(7) + b(6)
            && a % 64 == 32 * b(5) + 16 * b(4) + 8 * b(3) + 4 * b(2) + 2 * b(1) + b(0)
  {
    hide ShiftRight;
    Shifts(a);
    var h := (j: nat) => ShiftRight(a, j);
    assert h(2) == a / 4;
    assert h(4) == a / 16;
    assert h(6) == a / 64;
    assert h(7) < 2;
  }

  /** The first four sextets are the first three bytes regrouped. */
  lemma FirstGroup(s: string)
    requires Bytes(s)
    ensures var a, b, c := ByteAt(s, 0), ByteAt(s, 1), ByteAt(s, 2);
            && a < 256 && b < 256 && c < 256
            && Sextet(s, 0) == a / 4
            && Sextet(s, 1) == a % 4 * 16 + b / 16
            && Sextet(s, 2) == b % 16 * 4 + c / 64
            && Sextet(s, 3) == c % 64
  {
    hide BitAt, ShiftRight, Sextet, ByteAt;
    ByteIsSmall(s, 0);
    ByteIsSmall(s, 1);
    ByteIsSmall(s, 2);
    FirstBits(s, 0);
    FirstBits(s, 1);
    FirstBits(s, 2);
    Halves(ByteAt(s, 0));
    Halves(ByteAt(s, 1));
    Halves(ByteAt(s, 2));
    SextetBits(s, 0);
    SextetBits(s, 1);
    SextetBits(s, 2);
    SextetBits(s, 3);
  }

  lemma FirstBits(s: string, i: nat)
    ensures var b := (j: nat) => ShiftRight(ByteAt(s, i), j) % 2;
            && BitAt(s, 8 * i) == b(7) && BitAt(s, 8 * i + 1) == b(6) && BitAt(s, 8 * i + 2) == b(5)
               && BitAt(s, 8 * i + 3) == b(4)
            && BitAt(s, 8 * i + 4) == b(3) && BitAt(s, 8 * i + 5) == b(2) && BitAt(s, 8 * i + 6) == b(1)
               && BitAt(s, 8 * i + 7) == b(0)
  {
    hide BitAt, ShiftRight;
    BitOf(s, i, 7);
    BitOf(s, i, 6);
    BitOf(s, i, 5);
    BitOf(s, i, 4);
    BitOf(s, i, 3);
    BitOf(s, i, 2);
    BitOf(s, i, 1);
    BitOf(s, i, 0);
  }

  lemma {:induction false} ValueLater(s: string, n: nat, r: nat)
    requires |s| >= 3
    ensures Value(s, n + 24, r) == Value(s[3..], n, r)
  {
    if r > 0 {
      ValueLater(s, n, r - 1);
      assert (n + 24 + r - 1) / 8 == (n + r - 1) / 8 + 3 && (n + 24 + r - 1) % 8 == (n + r - 1) % 8;
    }
  }

  /** How many characters the encoder makes, and how many of them are padding. */
  function EncodedLength(n: nat): nat {
    4 * (n / 3 + 1)
  }

  function Longer(n: nat): nat {
    3 - n % 3
  }

  function CharAt(s: string, k: nat): char {
    if k + Longer(|s|) < EncodedLength(|s|) then Table(Sextet(s, k)) else '='
  }

  /** The encoder's text, character by character. */
  lemma {:induction false} EncodedAt(s: string, k: nat)
    requires Bytes(s) && k < EncodedLength(|s|)
    ensures |Encoded(s)| == EncodedLength(|s|) && Encoded(s)[k] == CharAt(s, k)
    decreases |s|
  {
    hide Encoded, CharAt;
    if |s| < 3 {
      EncodedEnd(s, k);
    } else {
      EncodedMore(s);
      EncodedAt(s[3..], if k < 4 then 0 else k - 4);
      if k < 4 {
        QuadAt(s, k);
      } else {
        CharLater(s, k - 4);
      }
    }
  }

  /** It fits on a line. */
  lemma EncodedIsPlain(s: string)
    requires Bytes(s)
    ensures '\r' !in Encoded(s)
  {
    hide Encoded, Sextet;
    if |Encoded(s)| > 0 {
      EncodedAt(s, 0);
    }
    forall k | 0 <= k < |Encoded(s)| ensures Encoded(s)[k] != '\r' {
      EncodedAt(s, k);
      NoControl(s, k);
    }
  }

  lemma NoControl(s: string, k: nat)
    requires Bytes(s) && k < EncodedLength(|s|)
    ensures CharAt(s, k) != '\r'
  {
  }

  lemma EncodedMore(s: string)
    requires Bytes(s) && |s| >= 3
    ensures Encoded(s) == Quad(s[0] as nat, s[1] as nat, s[2] as nat) + Encoded(s[3..])
    ensures EncodedLength(|s|) == EncodedLength(|s[3..]|) + 4 && Longer(|s|) == Longer(|s[3..]|)
  {
    hide Quad;
  }

  /** The last characters, with the padding. */
  lemma EncodedEnd(s: string, k: nat)
    requires Bytes(s) && |s| < 3 && k < EncodedLength(|s|)
    ensures |Encoded(s)| == EncodedLength(|s|) && Encoded(s)[k] == CharAt(s, k)
  {
    hide Table, Sextet;
    FirstGroup(s);
    TableZero();
  }

  /** The four characters of a whole group. */
  lemma QuadAt(s: string, k: nat)
    requires Bytes(s) && |s| >= 3 && k < 4
    ensures Quad(s[0] as nat, s[1] as nat, s[2] as nat)[k] == CharAt(s, k)
  {
    hide Table, Sextet;
    FirstGroup(s);
  }

  lemma CharLater(s: string, k: nat)
    requires |s| >= 3
    ensures CharAt(s, k + 4) == CharAt(s[3..], k)
  {
    hide Table, Sextet;
    SextetLater(s, k);
  }

  lemma TableZero()
    ensures Table(0) == 'A'
  {
  }

  lemma SextetLater(s: string, k: nat)
    requires |s| >= 3
    ensures Sextet(s, k + 4) == Sextet(s[3..], k)
  {
    ValueLater(s, 6 * k, 6);
  }

  /** The same sextets pushed out one bit at a time. */
  method Base64Encode(target: array<char>, at: nat, source: string) returns (len: nat)
    requires Bytes(source) && at + EncodedLength(|source|) <= target.Length
    modifies target
    ensures len == EncodedLength(|source|)
    ensures target[at..at + len] == Encoded(source)
    ensures target[..at] == old(target[..at])
  {
    hide Encoded, BitAt, Sextet, Table;
    var longer := 3 - |source| % 3;
    var sourceLenB64 := |source| + longer;
    len := sourceLenB64 * 4 / 3;
    var targetIdx, x: nat, current: nat := 0, 5, 0;
    for i := 0 to sourceLenB64
      invariant Pushed(target, at, source, 8 * i, targetIdx, x, current)
      invariant target[..at] == old(target[..at])
    {
      var b := if i < |source| then source[i] as nat else 0;
      for j := 8 downto 0
        invariant Pushed(target, at, source, 8 * i + 8 - j, targetIdx, x, current)
        invariant target[..at] == old(target[..at])
      {
        targetIdx, x, current := PushBit(target, at, source, i, j, b, targetIdx, x, current);
      }
    }
    for i := len - longer to len
      invariant target[..at] == old(target[..at])
      invariant forall k: nat :: k < i ==> target[at + k] == CharAt(source, k)
    {
      target[at + i] := '=';
    }
    forall k: nat | k < len ensures |Encoded(source)| == len && Encoded(source)[k] == target[at..at + len][k] {
      EncodedAt(source, k);
    }
    assert |target[at..at + len]| == |Encoded(source)| by { EncodedAt(source, 0); }
  }

  /** After `n` bits: the whole sextets among them are in the target, the bits left over are the
      high ones of `current`, and the next bit goes to place `x`. */
  ghost predicate Pushed(target: array<char>, at: nat, source: string, n: nat, targetIdx: nat, x: nat, current: nat)
    reads target
  {
    && x <= 5 && n + x == 6 * targetIdx + 5 && at + targetIdx <= target.Length
    && current == Value(source, 6 * targetIdx, 5 - x) * Pow2(x + 1)
    && forall k: nat :: k < targetIdx ==> target[at + k] == Table(Sextet(source, k))
  }

  method PushBit(target: array<char>, at: nat, ghost source: string, ghost i: nat, j: nat, b: nat,
                 targetIdx: nat, x: nat, current: nat)
    returns (targetIdx': nat, x': nat, current': nat)
    requires j < 8 && b == ByteAt(source, i) && Pushed(target, at, source, 8 * i + 7 - j, targetIdx, x, current)
    requires 8 * i + 7 - j < 6 * EncodedLength(|source|) && at + EncodedLength(|source|) <= target.Length
    modifies target
    ensures Pushed(target, at, source, 8 * i + 8 - j, targetIdx', x', current')
    ensures target[..at] == old(target[..at])
  {
    hide BitAt, ShiftRight, Table, ByteAt, Sextet, Bytes;
    BitOf(source, i, j);
    var shift := ShiftRight(b, j) % 2;
    ghost var high := Value(source, 6 * targetIdx, 5 - x);
    assert high * Pow2(x + 1) + shift * Pow2(x) == (2 * high + shift) * Pow2(x) by { Distribute(high, shift, Pow2(x)); }
    assert Value(source, 6 * targetIdx, 6 - x) == 2 * high + shift;
    targetIdx', x', current' := targetIdx, x, current + shift * Pow2(x);
    if x == 0 {
      assert current' == Sextet(source, targetIdx) by { SextetIs(source, targetIdx); }
      target[at + targetIdx] := Table(current');
      targetIdx', x', current' := targetIdx + 1, 6, 0;
    }
    x' := x' - 1;
  }

  lemma SextetIs(s: string, k: nat)
    ensures Sextet(s, k) == Value(s, 6 * k, 6)
  {
  }

  lemma Distribute(high: nat, low: nat, p: nat)
    ensures high * (2 * p) + low * p == (2 * high + low) * p
  {
  }
}
