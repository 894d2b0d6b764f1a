/** Recognising the server's replies: the code, and whether the last line has arrived. */
module SmtpReply {
  import opened Chains
  import opened Common
  import opened SmtpText

  const U16 := 0x1_0000
  const NOT_FOUND := 0xFFFF

  // ----- The reply code -----

  predicate IsCSpace(c: char) {
    c == ' ' || 9 as char <= c <= 13 as char
  }

  predicate IsDigit(c: char) {
    '0' <= c <= '9'
  }

  function Digits(s: string, acc: nat): nat {
    if s == "" || !IsDigit(s[0]) then acc else Digits(s[1..], 10 * acc + (s[0] as nat - '0' as nat))
  }

  /** strtol in base ten: leading space, a sign, and digits up to the first that is none. */
  function Strtol(s: string): int {
    if s == "" then 0
    else if IsCSpace(s[0]) then Strtol(s[1..])
    else if s[0] == '-' then -(Digits(s[1..], 0) as int)
    else if s[0] == '+' then Digits(s[1..], 0)
    else Digits(s, 0)
  }

  /** smtp_is_response: a code from the first three characters, zero if there is none. */
  function Code(p: string): (code: nat)
    ensures code < 1000
  {
    if |p| < 3 then 0
    else
      var num := Strtol(p[..3]);
      if num <= 0 || num >= 1000 then 0 else num
  }

  predicate AreDigits(a: char, b: char, c: char) {
    IsDigit(a) && IsDigit(b) && IsDigit(c)
  }

  function Number(a: char, b: char, c: char): nat
    requires AreDigits(a, b, c)
  {
    100 * (a as nat - '0' as nat) + 10 * (b as nat - '0' as nat) + (c as nat - '0' as nat)
  }

  /** Every code from 100 on is read from three digits and from nothing else. */
  lemma CodeIsThreeDigits(p: string, code: nat)
    requires code >= 100
    ensures Code(p) == code <==>
            code < 1000 && |p| >= 3 && AreDigits(p[0], p[1], p[2]) && Number(p[0], p[1], p[2]) == code
  {
    hide Strtol;
    if |p| >= 3 {
      StrtolThree(p[..3]);
    }
  }

  lemma StrtolThree(s: string)
    requires |s| == 3
    ensures if AreDigits(s[0], s[1], s[2]) then Strtol(s) == Number(s[0], s[1], s[2]) < 1000 else Strtol(s) <= 99
  {
    if IsDigit(s[0]) {
      DigitsTwo(s[1..], s[0] as nat - '0' as nat);
    } else {
      StrtolShort(s[1..]);
      DigitsOf(s[1..], 0);
    }
  }

  lemma DigitsTwo(s: string, acc: nat)
    requires |s| == 2 && acc <= 9
    ensures if IsDigit(s[0]) && IsDigit(s[1])
            then Digits(s, acc) == 100 * acc + 10 * (s[0] as nat - '0' as nat) + (s[1] as nat - '0' as nat)
            else Digits(s, acc) <= 99
  {
    if IsDigit(s[0]) {
      DigitsOf(s[1..], 10 * acc + (s[0] as nat - '0' as nat));
    }
  }

  lemma {:induction false} StrtolShort(s: string)
    requires |s| <= 2
    ensures Strtol(s) <= 99
  {
    if s != "" {
      DigitsOf(s, 0);
      DigitsOf(s[1..], 0);
      StrtolShort(s[1..]);
    }
  }

  lemma DigitsOf(s: string, acc: nat)
    requires |s| <= 2
    ensures |s| == 1 ==> Digits(s, acc) == if IsDigit(s[0]) then 10 * acc + (s[0] as nat - '0' as nat) else acc
    ensures |s| == 0 ==> Digits(s, acc) == acc
    ensures Digits(s, acc) <= 100 * acc + 99
  {
  }

  // ----- The last line -----

  /** From the start of a line on: lines with a hyphen after the code, and one with a space. */
  predicate Finished(p: string)
    decreases |p|
  {
    match Find(p, CRLF, 4)
    case None => false
    case Some(end) => p[3] == ' ' || (p[3] == '-' && Finished(p[end + 2..]))
  }

  // ----- The scanner -----

  /** pbuf_get_at: zero beyond the end. */
  function GetAt(text: string, at: nat): char {
    if at < |text| then text[at] else '\0'
  }

  datatype Verdict = Again(offset: nat) | Accept | Reject

  /** One pass of smtp_is_response_finished from the label `again`; offsets have 16 bits. */
  function Pass(text: string, offset: nat): Verdict {
    match Find(text, CRLF, (offset + 4) % U16)
    case None => Reject
    case Some(crlf) =>
      var sp := GetAt(text, (offset + 3) % U16);
      if sp == '-' then Again((crlf + 2) % U16) else if sp == ' ' then Accept else Reject
  }

  /** Where the lines with a hyphen end. */
  function HyphenEnd(p: string): (end: nat)
    ensures end <= |p|
    decreases |p|
  {
    match Find(p, CRLF, 4)
    case None => 0
    case Some(end) => if p[3] == '-' then end + 2 + HyphenEnd(p[end + 2..]) else 0
  }

  /** The 16-bit offset of the separator behind the hyphen lines wraps round and comes upon `c`, one of
      the first three characters. */
  predicate WrapsTo(text: string, c: char) {
    |text| < U16 && HyphenEnd(text) + 3 >= U16 && text[HyphenEnd(text) + 3 - U16] == c
  }

  /** The text fits a pbuf, and its hyphen lines have fewer than 65533 characters or the wrapped offset
      comes upon neither a space nor a hyphen. */
  predicate Settles(text: string) {
    |text| < U16 && !WrapsTo(text, ' ') && !WrapsTo(text, '-')
  }

  /** What the scanner takes for a whole reply. */
  predicate Accepts(text: string) {
    Finished(text) || WrapsTo(text, ' ')
  }

  lemma HyphenEndHere(p: string)
    requires HyphenEnd(p) == 0
    ensures Finished(p) <==> Find(p, CRLF, 4).Some? && p[3] == ' '
    ensures Find(p, CRLF, 4).Some? ==> p[3] != '-'
  {
  }

  /** Behind the hyphen lines there are none. */
  lemma {:induction false} HyphenEndIsEnd(p: string)
    ensures HyphenEnd(p[HyphenEnd(p)..]) == 0 && (Finished(p) <==> Finished(p[HyphenEnd(p)..]))
    decreases |p|
  {
    hide Find;
    var end := Find(p, CRLF, 4);
    if end.Some? && p[3] == '-' {
      HyphenEndIsEnd(p[end.value + 2..]);
      assert p[HyphenEnd(p)..] == p[end.value + 2..][HyphenEnd(p[end.value + 2..])..];
    } else {
      assert p[0..] == p;
    }
  }

  /** What a pass decides where the line is in reach of 16-bit offsets. */
  lemma PassInReach(text: string, offset: nat)
    requires offset <= |text| < U16 && offset + 4 < U16
    ensures var rest := text[offset..];
            Pass(text, offset) ==
            match Find(rest, CRLF, 4)
            case None => Reject
            case Some(end) =>
              if rest[3] == '-' then Again(offset + end + 2) else if rest[3] == ' ' then Accept else Reject
  {
    hide Find;
    assert (offset + 4) % U16 == offset + 4 && (offset + 3) % U16 == offset + 3;
    FindInRest(text, CRLF, offset, 4);
  }

  /** Hyphen lines that leave no room for another line are no whole reply. */
  lemma LongChain(text: string)
    requires |text| < U16 && HyphenEnd(text) + 4 >= U16
    ensures !Finished(text) && text[HyphenEnd(text) - 2..HyphenEnd(text)] == CRLF
  {
    hide Find, HyphenEnd, Finished;
    var rest := text[HyphenEnd(text)..];
    HyphenEndIsEnd(text);
    HyphenEndHere(rest);
    assert Find(rest, CRLF, 4) == None;
    LastCrlf(text);
  }

  /** What a pass decides behind a line that ends where the offsets wrap round. */
  lemma PassWrapped(text: string, h: nat)
    requires U16 - 4 <= h <= |text| < U16 && text[h - 2..h] == CRLF
    ensures h + 3 < U16 ==> Pass(text, h) == Reject
    ensures h + 3 >= U16 ==> (Pass(text, h) == Reject <==> text[h + 3 - U16] != ' ' && text[h + 3 - U16] != '-')
    ensures Pass(text, h) == Accept <==> h + 3 >= U16 && text[h + 3 - U16] == ' '
  {
    hide Find;
    var start := (h + 4) % U16;
    assert start == h + 4 - U16;
    FindMissesNone(text, CRLF, start, h - 2);
    assert (h + 3) % U16 == if h + 3 < U16 then h + 3 else h + 3 - U16;
  }

  /** The pass behind the hyphen lines gives the right verdict if and only if the text settles. */
  lemma LastPass(text: string)
    requires |text| < U16
    ensures Pass(text, HyphenEnd(text)) == (if Finished(text) then Accept else Reject) <==> Settles(text)
  {
    hide Find, HyphenEnd, Finished, Pass;
    var h := HyphenEnd(text);
    if h + 4 < U16 {
      HyphenEndIsEnd(text);
      HyphenEndHere(text[h..]);
      PassInReach(text, h);
    } else {
      LongChain(text);
      PassWrapped(text, h);
    }
  }

  /** Hyphen lines end with a CRLF. */
  lemma {:induction false} LastCrlf(p: string)
    requires HyphenEnd(p) > 0
    ensures HyphenEnd(p) >= 6 && p[HyphenEnd(p) - 2..HyphenEnd(p)] == CRLF
    decreases |p|
  {
    hide HyphenEnd, Finished;
    NextLine(p);
    var end := Find(p, CRLF, 4).value;
    var rest := p[end + 2..];
    if HyphenEnd(rest) > 0 {
      LastCrlf(rest);
      SliceOfRest(p, end + 2, HyphenEnd(rest) - 2, HyphenEnd(rest));
    }
  }

  lemma NextLine(p: string)
    requires HyphenEnd(p) > 0
    ensures Find(p, CRLF, 4).Some? && p[3] == '-'
    ensures var next := Find(p, CRLF, 4).value + 2;
            HyphenEnd(p) == next + HyphenEnd(p[next..]) && (Finished(p) <==> Finished(p[next..]))
  {
    hide Find;
  }

  /** Where a pass may begin: at the start of a line, with as many hyphen lines before it as lead there. */
  predicate OnChain(text: string, offset: nat) {
    && offset <= |text| < U16
    && HyphenEnd(text) == offset + HyphenEnd(text[offset..])
    && (Finished(text) <==> Finished(text[offset..]))
  }

  /** On a line with a hyphen a pass goes on to the next line. */
  lemma ChainStep(text: string, offset: nat)
    requires OnChain(text, offset) && offset < HyphenEnd(text)
    ensures Pass(text, offset).Again? && offset < Pass(text, offset).offset && OnChain(text, Pass(text, offset).offset)
  {
    hide Find, Pass, HyphenEnd, Finished;
    NextLine(text[offset..]);
    PassInReach(text, offset);
    var end := Find(text[offset..], CRLF, 4).value;
    assert text[offset..][end + 2..] == text[offset + end + 2..];
  }

  /** What the last pass decides, or that it goes back to the second line. */
  lemma ChainEnd(text: string)
    requires |text| < U16
    ensures WrapsTo(text, ' ') ==> Pass(text, HyphenEnd(text)) == Accept && !Finished(text)
    ensures Settles(text) ==> Pass(text, HyphenEnd(text)) == if Finished(text) then Accept else Reject
    ensures WrapsTo(text, '-') && Code(text) != 0 ==>
              Pass(text, HyphenEnd(text)) == Pass(text, 0) && HyphenEnd(text) > 0 && !Finished(text)
  {
    hide Find, HyphenEnd, Finished, Pass, Code;
    LastPass(text);
    var h := HyphenEnd(text);
    if h + 3 >= U16 {
      LongChain(text);
      PassWrapped(text, h);
      if WrapsTo(text, '-') && Code(text) != 0 {
        PassGoesBack(text);
      }
    }
  }

  /** From a wrapped hyphen on the first CRLF is the one that ends the first line. */
  lemma PassGoesBack(text: string)
    requires WrapsTo(text, '-') && Code(text) != 0
    ensures Pass(text, HyphenEnd(text)) == Pass(text, 0)
  {
    hide Find, HyphenEnd, Code;
    var h := HyphenEnd(text);
    var at := h + 3 - U16;
    assert (h + 4) % U16 == at + 1 && (h + 3) % U16 == at;
    NextLine(text);
    if at == 0 {
      HyphenIsNoCode(text);
    }
    FindLater(text, at + 1);
  }

  lemma HyphenIsNoCode(text: string)
    requires text != "" && text[0] == '-'
    ensures Code(text) == 0
  {
  }

  lemma FindLater(text: string, start: nat)
    requires 2 <= start <= 3 && |text| > 4 && text[3] == '-'
    ensures Find(text, CRLF, start) == Find(text, CRLF, 4)
  {
    hide Find;
    assert text[2..4][1] == '-' && text[3..5][0] == '-';
    FindStep(text, CRLF, 2);
    FindStep(text, CRLF, 3);
  }

  // ----- The scan as a whole -----

  /** Where the scan is after `n` passes: at an offset, or at its verdict. */
  function Scan(text: string, n: nat): Verdict {
    if n == 0 then Again(0)
    else
      match Scan(text, n - 1)
      case Again(offset) => Pass(text, offset)
      case verdict => verdict
  }

  lemma {:induction false} VerdictStays(text: string, n: nat, k: nat)
    requires k <= n && !Scan(text, k).Again?
    ensures Scan(text, n) == Scan(text, k)
    decreases n
  {
    hide Pass;
    if k < n {
      VerdictStays(text, n - 1, k);
    }
  }

  /** The scan comes to the end of the hyphen lines. */
  lemma {:induction false} ScanReachesEnd(text: string, n: nat) returns (k: nat)
    requires Scan(text, n).Again? && OnChain(text, Scan(text, n).offset)
    ensures Scan(text, k) == Again(HyphenEnd(text))
    decreases HyphenEnd(text) - Scan(text, n).offset
  {
    hide Pass, HyphenEnd, Finished;
    var offset := Scan(text, n).offset;
    if offset == HyphenEnd(text) {
      k := n;
    } else {
      ChainStep(text, offset);
      k := ScanReachesEnd(text, n + 1);
    }
  }

  /** Behind a wrapped hyphen the scan starts over: however many passes it makes, it has not ended. */
  lemma {:induction false} ScanGoesRound(text: string, n: nat)
    requires WrapsTo(text, '-') && Code(text) != 0
    ensures Scan(text, n).Again? && OnChain(text, Scan(text, n).offset)
  {
    hide Pass, HyphenEnd, Finished, Code, OnChain;
    ChainStart(text);
    if n > 0 {
      ScanGoesRound(text, n - 1);
      var offset := Scan(text, n - 1).offset;
      ChainEnd(text);
      OnChainBounds(text, offset);
      ChainStep(text, if offset < HyphenEnd(text) then offset else 0);
    }
  }

  lemma ChainStart(text: string)
    requires |text| < U16
    ensures OnChain(text, 0)
  {
    assert text[0..] == text;
  }

  lemma OnChainBounds(text: string, offset: nat)
    requires OnChain(text, offset)
    ensures offset <= HyphenEnd(text)
  {
  }

  /** On a text with a code the scanner reaches the right verdict if and only if the text settles. It
      accepts what it should not where the wrapped offset comes upon a space, and goes on for ever
      where it comes upon a hyphen. */
  lemma ScanDecides(text: string)
    requires |text| < U16 && Code(text) != 0
    ensures (exists n: nat :: Scan(text, n) == if Finished(text) then Accept else Reject) <==> Settles(text)
    ensures (exists n: nat :: Scan(text, n) == Accept) <==> Accepts(text)
    ensures (forall n: nat :: Scan(text, n).Again?) <==> WrapsTo(text, '-')
  {
    hide Pass, HyphenEnd, Finished, Code, OnChain, Scan, WrapsTo;
    if WrapsTo(text, '-') {
      forall n: nat ensures Scan(text, n).Again? {
        ScanGoesRound(text, n);
      }
      ChainEnd(text);
      OneWrap(text);
    } else {
      var k := ScanVerdict(text);
      forall n: nat ensures Scan(text, n).Again? || Scan(text, n) == Scan(text, k) {
        if !Scan(text, n).Again? {
          VerdictStays(text, if n < k then k else n, if n < k then n else k);
        }
      }
    }
  }

  lemma OneWrap(text: string)
    requires WrapsTo(text, '-')
    ensures !WrapsTo(text, ' ')
  {
  }

  lemma ScanVerdict(text: string) returns (k: nat)
    requires |text| < U16 && !WrapsTo(text, '-')
    ensures Scan(text, k) == if Accepts(text) then Accept else Reject
    ensures WrapsTo(text, ' ') ==> !Finished(text)
  {
    hide Pass, HyphenEnd, Finished, OnChain, WrapsTo;
    ChainStart(text);
    k := ScanReachesEnd(text, 0);
    ChainEnd(text);
    k := k + 1;
  }

  /** Three digits hold neither a space nor a hyphen: only codes below 100 can fail. */
  lemma CodeSettles(text: string)
    requires Code(text) >= 100
    ensures |text| < U16 ==> Settles(text)
    ensures Accepts(text) <==> Finished(text)
  {
    hide HyphenEnd, Code, Finished;
    CodeIsThreeDigits(text, Code(text));
    assert HyphenEnd(text) <= |text|;
  }

  /** smtp_is_response_finished, called on a text with a code. `ends` tells whether the scan ends: the
      offset goes back only where it does not, and there, where the code goes round, the model stops. */
  method IsResponseFinished(p: Option<string>) returns (ok: bool, ends: bool)
    requires p.Some? ==> |p.value| < U16 && Code(p.value) != 0
    ensures ends <==> p == None || exists n: nat :: !Scan(p.value, n).Again?
    ensures ends <==> p == None || !WrapsTo(p.value, '-')
    ensures ends ==> (ok <==> p.Some? && Accepts(p.value))
  {
    hide Find, WrapsTo, Pass, HyphenEnd, Finished, Code, OnChain, Scan;
    if p == None {
      return false, true;
    }
    var text := p.value;
    var offset: nat := 0;
    ScanDecides(text);
    ChainStart(text);
    while true
      invariant OnChain(text, offset)
      decreases |text| - offset
    {
      OnChainBounds(text, offset);
      PassIs(text, offset);
      NextPass(text, offset);
      var crlf := match Find(text, CRLF, (offset + 4) % U16) { case None => NOT_FOUND case Some(at) => at };
      if crlf == NOT_FOUND {
        return false, true;
      }
      var sp := GetAt(text, (offset + 3) % U16);
      if sp == '-' {
        var next := (crlf + 2) % U16;
        if next <= offset {
          return false, false;
        }
        offset := next;
      } else if sp == ' ' {
        return true, true;
      } else {
        return false, true;
      }
    }
  }

  lemma PassIs(text: string, offset: nat)
    ensures Pass(text, offset) ==
            match Find(text, CRLF, (offset + 4) % U16)
            case None => Reject
            case Some(crlf) =>
              var sp := GetAt(text, (offset + 3) % U16);
              if sp == '-' then Again((crlf + 2) % U16) else if sp == ' ' then Accept else Reject
  {
  }

  /** A pass decides, goes on to the next line, or goes back and the scan does not end. */
  lemma NextPass(text: string, offset: nat)
    requires OnChain(text, offset) && Code(text) != 0
    ensures match Pass(text, offset)
            case Accept => Accepts(text) && !WrapsTo(text, '-')
            case Reject => !Accepts(text) && !WrapsTo(text, '-')
            case Again(next) => if offset < next then OnChain(text, next) else WrapsTo(text, '-')
  {
    hide Find, Pass, HyphenEnd, Finished, Code;
    if offset < HyphenEnd(text) {
      ChainStep(text, offset);
    } else {
      ChainEnd(text);
      ChainStart(text);
      if WrapsTo(text, '-') {
        ChainStep(text, 0);
      }
    }
  }

  /** Every text the scanner is to accept settles, if it fits a pbuf at all. */
  lemma {:induction false} FinishedSettles(p: string)
    requires Finished(p)
    ensures HyphenEnd(p) + 6 <= |p| && (|p| < U16 ==> Settles(p))
    decreases |p|
  {
    hide Find;
    if p[3] == '-' {
      FinishedSettles(p[Find(p, CRLF, 4).value + 2..]);
    }
  }

  /** A text of 65535 characters that does not settle: one hyphen line and two more characters, which
      the scanner accepts for the space at the very start. */
  lemma WrapsRound() returns (text: string)
    ensures |text| == U16 - 1 && Code(text) == 20 && !Finished(text) && Scan(text, 2) == Accept
  {
    var line := " 20-" + seq(U16 - 9, _ => 'x');
    text := line + CRLF + "ab";
    assert line[4..] == seq(U16 - 9, _ => 'x');
    LineEnds(line, "ab", 4);
    CodeTwenty(text, " 20");
    Wrapping(text, |line|);
  }

  lemma Wrapping(text: string, end: nat)
    requires |text| == U16 - 1 && end == U16 - 5 && Find(text, CRLF, 4) == Some(end)
    requires text[0] == ' ' && text[3] == '-'
    ensures !Finished(text) && Scan(text, 2) == Accept
  {
    hide Find, HyphenEnd, Finished, Code;
    OneHyphenLine(text, end);
    ChainEnd(text);
    PassIs(text, 0);
    assert Scan(text, 1) == Pass(text, 0);
  }

  /** One that the scanner never leaves: a single hyphen line with a hyphen after the code as well. */
  lemma GoesRound() returns (text: string)
    ensures |text| == U16 - 1 && Code(text) == 20 && !Finished(text) && forall n: nat :: Scan(text, n).Again?
  {
    var line := "20--" + seq(U16 - 7, _ => 'x');
    text := line + CRLF;
    assert line[4..] == seq(U16 - 7, _ => 'x');
    LineEnds(line, "", 4);
    assert line + CRLF + "" == text;
    CodeTwenty(text, "20-");
    GoingRound(text, |line|);
  }

  lemma GoingRound(text: string, end: nat)
    requires |text| == U16 - 1 && end == U16 - 3 && Find(text, CRLF, 4) == Some(end)
    requires text[2] == '-' && text[3] == '-' && Code(text) == 20
    ensures !Finished(text) && forall n: nat :: Scan(text, n).Again?
  {
    hide Find, HyphenEnd, Finished, Code, Scan;
    OneHyphenLine(text, end);
    ScanDecides(text);
  }

  lemma CodeTwenty(text: string, s: string)
    requires s <= text && (s == " 20" || s == "20-")
    ensures Code(text) == 20
  {
    assert text[..3] == s;
    if s == " 20" {
      TwoDigits(s[1..]);
    } else {
      TwoDigits(s);
    }
  }

  lemma TwoDigits(s: string)
    requires |s| >= 2 && s[..2] == "20" && (|s| > 2 ==> s[2] == '-')
    ensures Strtol(s) == 20
  {
    assert s[0] == s[..2][0] && s[1] == s[..2][1] && s[1..][1..] == s[2..];
    assert Digits(s[2..], 20) == 20;
    assert Digits(s[1..], 2) == 20;
  }

  lemma OneHyphenLine(text: string, end: nat)
    requires |text| < end + 8 && Find(text, CRLF, 4) == Some(end) && text[3] == '-'
    ensures HyphenEnd(text) == end + 2 && !Finished(text)
  {
    hide Find;
    assert Find(text[end + 2..], CRLF, 4) == None;
  }

  // ----- Section 4.2.1 of RFC 5321 -----

  /** A line: a code, a separator, and a text up to the first CRLF. */
  predicate IsLine(line: string) {
    |line| >= 6 && Find(line, CRLF, 4) == Some(|line| - 2)
  }

  /** Any number of lines that announce another one, and a last line. */
  predicate IsReply(lines: seq<string>) {
    && lines != [] && IsLine(lines[0])
    && if |lines| == 1 then lines[0][3] == ' ' else lines[0][3] == '-' && IsReply(lines[1..])
  }

  lemma FirstLine(line: string, rest: string)
    requires IsLine(line)
    ensures Find(line + rest, CRLF, 4) == Some(|line| - 2) && (line + rest)[3] == line[3]
    ensures (line + rest)[|line|..] == rest
  {
    FindStable(line, rest, CRLF, 4);
  }

  /** The scanner accepts exactly the texts that start with a whole reply. */
  lemma {:induction false} FinishedIsReply(p: string) returns (lines: seq<string>)
    requires Finished(p)
    ensures IsReply(lines) && Flat(lines) <= p
    decreases |p|
  {
    hide Find, Flat;
    var end := Find(p, CRLF, 4).value;
    var line, rest := p[..end + 2], p[end + 2..];
    assert p == line + rest;
    CutLine(p, end);
    if p[3] == ' ' {
      FlatOne(line);
      lines := [line];
    } else {
      var more := FinishedIsReply(rest);
      lines := [line] + more;
      FlatCons(line, more);
      assert lines[1..] == more;
      PrefixAfter(line, Flat(more), rest);
    }
  }

  lemma PrefixAfter(line: string, some: string, rest: string)
    requires some <= rest
    ensures line + some <= line + rest
  {
  }

  /** Up to its end a line's CRLF is the first. */
  lemma CutLine(p: string, end: nat)
    requires Find(p, CRLF, 4) == Some(end)
    ensures IsLine(p[..end + 2])
  {
    hide Find;
    var line := p[..end + 2];
    assert line[end..end + 2] == p[end..end + 2];
    FindMissesNone(line, CRLF, 4, end);
    assert p == line + p[end + 2..];
    FindStable(line, p[end + 2..], CRLF, 4);
  }

  lemma {:induction false} ReplyIsFinished(p: string, lines: seq<string>)
    requires IsReply(lines) && Flat(lines) <= p
    ensures Finished(p)
    decreases |p|
  {
    hide Find;
    var line, rest := lines[0], p[|lines[0]|..];
    assert p == line + rest;
    FirstLine(line, rest);
    if |lines| > 1 {
      assert Flat(lines) == line + Flat(lines[1..]);
      assert Flat(lines[1..]) <= rest;
      ReplyIsFinished(rest, lines[1..]);
    }
  }

  /** More text does not undo a reply. */
  lemma FinishedIsStable(p: string, more: string)
    requires Finished(p)
    ensures Finished(p + more)
  {
    var lines := FinishedIsReply(p);
    assert p <= p + more;
    ReplyIsFinished(p + more, lines);
  }

  /** No part of a reply is one. */
  lemma {:induction false} PartIsNotFinished(lines: seq<string>, part: string)
    requires IsReply(lines) && part < Flat(lines)
    ensures !Finished(part)
    decreases |lines|
  {
    hide Find;
    var line, more := lines[0], Flat(lines[1..]);
    assert Flat(lines) == line + more;
    if |part| < |line| {
      assert line == part + line[|part|..];
      if Find(part, CRLF, 4).Some? {
        FindStable(part, line[|part|..], CRLF, 4);
      }
    } else {
      var rest := part[|line|..];
      assert part == line + rest;
      FirstLine(line, rest);
      if |lines| > 1 {
        assert rest < more by { assert (line + more)[|line|..] == more; }
        PartIsNotFinished(lines[1..], rest);
      }
    }
  }

  lemma {:induction false} HyphenEndOfPart(part: string, rest: string)
    ensures HyphenEnd(part) <= HyphenEnd(part + rest)
    decreases |part|
  {
    hide Find;
    var end := Find(part, CRLF, 4);
    if end.Some? && part[3] == '-' {
      FindStable(part, rest, CRLF, 4);
      HyphenEndOfPart(part[end.value + 2..], rest);
      assert (part + rest)[end.value + 2..] == part[end.value + 2..] + rest;
    }
  }

  lemma CodeOfPart(part: string, rest: string)
    requires |part| >= 3
    ensures Code(part + rest) == Code(part)
  {
    assert (part + rest)[..3] == part[..3];
  }

  /** No part of a reply is taken for all of it, if the reply has a code of three digits or fits a pbuf. */
  lemma PartIsNotAccepted(lines: seq<string>, part: string)
    requires IsReply(lines) && part < Flat(lines) && |part| >= 3
    requires Code(Flat(lines)) >= 100 || |Flat(lines)| < U16
    ensures !Accepts(part)
  {
    hide IsReply, Code, HyphenEnd, Finished;
    PartIsNotFinished(lines, part);
    var whole, rest := Flat(lines), Flat(lines)[|part|..];
    assert whole == part + rest;
    if Code(whole) >= 100 {
      CodeOfPart(part, rest);
      CodeSettles(part);
    } else {
      HyphenEndOfPart(part, rest);
      ReplyIsFinished(whole, lines);
      FinishedSettles(whole);
    }
  }
}
