/** Looking for a text in what the server has sent. */
module SmtpText {
  import opened Common

  const CRLF := "\r\n"

  /** pbuf_memfind and pbuf_strstr: the first occurrence of `text` at or after `start`. */
  function Find(s: string, text: string, start: nat): (at: Option<nat>)
    ensures at.Some? ==> start <= at.value <= |s| - |text| && s[at.value..at.value + |text|] == text
    decreases |s| - start
  {
    if start + |text| > |s| then None
    else if s[start..start + |text|] == text then Some(start)
    else if start < |s| then Find(s, text, start + 1)
    else None
  }

  /** No occurrence comes before the one found, and none exists if none is found. */
  lemma {:induction false} FindMissesNone(s: string, text: string, start: nat, at: nat)
    requires start <= at <= |s| - |text| && s[at..at + |text|] == text
    ensures Find(s, text, start).Some? && Find(s, text, start).value <= at
    decreases |s| - start
  {
    if s[start..start + |text|] != text {
      FindMissesNone(s, text, start + 1, at);
    }
  }

  /** What has been found stays found when more text arrives. */
  lemma {:induction false} FindStable(s: string, more: string, text: string, start: nat)
    requires Find(s, text, start).Some?
    ensures Find(s + more, text, start) == Find(s, text, start)
    decreases |s| - start
  {
    assert (s + more)[start..start + |text|] == s[start..start + |text|];
    if s[start..start + |text|] != text {
      FindStable(s, more, text, start + 1);
    }
  }

  function Shift(at: Option<nat>, skip: nat): Option<nat> {
    if at == None then None else Some(skip + at.value)
  }

  lemma FindStep(s: string, text: string, start: nat)
    ensures Find(s, text, start) ==
            if IsAt(s, text, start) then Some(start)
            else if start < |s| then Find(s, text, start + 1) else None
  {
  }

  /** Looking from further on is looking in what is left. */
  lemma {:induction false} FindInRest(s: string, text: string, skip: nat, start: nat)
    requires skip <= |s|
    ensures Find(s, text, skip + start) == Shift(Find(s[skip..], text, start), skip)
    decreases |s| - start
  {
    hide Find, IsAt;
    FindStep(s, text, skip + start);
    FindStep(s[skip..], text, start);
    IsAtInRest(s, text, skip, start);
    if skip + start < |s| {
      FindInRest(s, text, skip, start + 1);
    }
  }

  predicate IsAt(s: string, text: string, at: nat) {
    at + |text| <= |s| && s[at..at + |text|] == text
  }

  lemma IsAtInRest(s: string, text: string, skip: nat, at: nat)
    requires skip <= |s|
    ensures IsAt(s, text, skip + at) <==> IsAt(s[skip..], text, at)
  {
    if skip + at + |text| <= |s| {
      SliceOfRest(s, skip, at, at + |text|);
    }
  }

  lemma SliceOfRest(s: string, skip: nat, a: nat, b: nat)
    requires skip <= |s| && a <= b <= |s| - skip
    ensures s[skip..][a..b] == s[skip + a..skip + b]
  {
  }

  /** A text without CR ends at the first CRLF after it. */
  lemma {:induction false} LineEnds(line: string, rest: string, start: nat)
    requires start <= |line| && '\r' !in line[start..]
    ensures Find(line + CRLF + rest, CRLF, start) == Some(|line|)
    decreases |line| - start
  {
    var s := line + CRLF + rest;
    if start == |line| {
      assert s[start..start + 2] == CRLF;
    } else {
      assert s[start..start + 2][0] == line[start] == line[start..][0];
      assert line[start + 1..] == line[start..][1..];
      LineEnds(line, rest, start + 1);
    }
  }
}
