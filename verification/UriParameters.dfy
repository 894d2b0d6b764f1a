/** Splitting the parameter part of a URI in place, `a=1&b=2` into C strings. */
module UriParameters {
  import opened Common

  const MAX_CGI_PARAMETERS := 16

  datatype Pair = Pair(name: string, value: Option<string>) {
    function Text(): string {
      if value.Some? then name + "=" + value.value else name
    }
  }

  /** Where `c` first occurs in `text` at or after `from`, or the length of the text. */
  function IndexFrom(text: string, from: nat, c: char): (k: nat)
    requires from <= |text|
    ensures from <= k <= |text| && (forall i :: from <= i < k ==> text[i] != c)
    ensures k < |text| ==> text[k] == c
    decreases |text| - from
  {
    if from == |text| || text[from] == c then from else IndexFrom(text, from + 1, c)
  }

  // ----- The pairs of a text -----

  function PairOf(text: string, from: nat, stop: nat): (p: Pair)
    requires from <= stop <= |text|
    ensures p.Text() == text[from..stop]
  {
    var equals := IndexFrom(text, from, '=');
    if equals < stop then
      assert text[from..stop] == text[from..equals] + "=" + text[equals + 1..stop];
      Pair(text[from..equals], Some(text[equals + 1..stop]))
    else Pair(text[from..stop], None)
  }

  /** The pairs from `from` on, at most `max`; only a pair that nothing follows ends at a space. */
  function Pairs(text: string, from: nat, max: nat): seq<Pair>
    requires from <= |text|
    decreases max
  {
    if max == 0 then [] else
      var amp := IndexFrom(text, from, '&');
      if amp < |text| then [PairOf(text, from, amp)] + Pairs(text, amp + 1, max - 1)
      else [PairOf(text, from, IndexFrom(text, from, ' '))]
  }

  /** How often `c` occurs in `text[from..to]`. */
  function Count(text: string, from: nat, stop: nat, c: char): nat
    requires from <= stop <= |text|
    decreases stop - from
  {
    if from == stop then 0 else (if text[from] == c then 1 else 0) + Count(text, from + 1, stop, c)
  }

  lemma {:induction false} CountSplit(text: string, from: nat, at: nat, stop: nat, c: char)
    requires from <= at <= stop <= |text|
    ensures Count(text, from, stop, c) == Count(text, from, at, c) + Count(text, at, stop, c)
    decreases at - from
  {
    if from < at {
      CountSplit(text, from + 1, at, stop, c);
    }
  }

  lemma {:induction false} CountNone(text: string, from: nat, stop: nat, c: char)
    requires from <= stop <= |text| && forall i :: from <= i < stop ==> text[i] != c
    ensures Count(text, from, stop, c) == 0
    decreases stop - from
  {
    if from < stop {
      CountNone(text, from + 1, stop, c);
    }
  }

  /** The ampersands after the first one. */
  lemma CountAfterFirst(text: string, from: nat)
    requires from <= |text|
    ensures var amp := IndexFrom(text, from, '&');
            Count(text, from, |text|, '&') == if amp < |text| then 1 + Count(text, amp + 1, |text|, '&') else 0
  {
    var amp := IndexFrom(text, from, '&');
    CountNone(text, from, amp, '&');
    CountSplit(text, from, amp, |text|, '&');
  }

  /** Where the `n`-th ampersand from `from` on is, counting from one. */
  function Ampersand(text: string, from: nat, n: nat): (k: nat)
    requires from <= |text| && 1 <= n <= Count(text, from, |text|, '&')
    ensures from <= k < |text| && text[k] == '&' && Count(text, from, k, '&') == n - 1
    decreases n
  {
    var amp := IndexFrom(text, from, '&');
    CountAfterFirst(text, from);
    CountNone(text, from, amp, '&');
    if n == 1 then amp else
      var k := Ampersand(text, amp + 1, n - 1);
      CountSplit(text, from, amp, k, '&');
      k
  }

  /** Where the text ends for the splitter: at the `max`-th ampersand, or if there are fewer at
      the first space after the last of them. */
  function KeptEnd(text: string, from: nat, max: nat): (end: nat)
    requires from <= |text| && max > 0
    ensures from <= end <= |text|
  {
    var n := Count(text, from, |text|, '&');
    if n >= max then Ampersand(text, from, max)
    else IndexFrom(text, if n == 0 then from else Ampersand(text, from, n) + 1, ' ')
  }

  function Join(pairs: seq<Pair>): string {
    if pairs == [] then ""
    else if |pairs| == 1 then pairs[0].Text()
    else pairs[0].Text() + "&" + Join(pairs[1..])
  }

  /** The number of parameters found. */
  lemma {:induction false} PairCount(text: string, from: nat, max: nat)
    requires from <= |text| && max > 0
    ensures |Pairs(text, from, max)| ==
            if Count(text, from, |text|, '&') + 1 < max then Count(text, from, |text|, '&') + 1 else max
    decreases max
  {
    hide PairOf, Count, IndexFrom;
    CountAfterFirst(text, from);
    var amp := IndexFrom(text, from, '&');
    if amp < |text| && max > 1 {
      PairCount(text, amp + 1, max - 1);
    }
  }

  /** Nothing is lost between the pairs: rejoined, they are the text as far as it is kept. */
  lemma {:induction false} JoinedPairsAreTheText(text: string, from: nat, max: nat)
    requires from <= |text| && max > 0
    ensures Join(Pairs(text, from, max)) == text[from..KeptEnd(text, from, max)]
    decreases max
  {
    hide Join, Count, PairOf, Pairs, KeptEnd;
    var amp := IndexFrom(text, from, '&');
    if amp < |text| && max > 1 {
      JoinedPairsAreTheText(text, amp + 1, max - 1);
      MorePairs(text, from, max, amp);
      SomePairs(text, amp + 1, max - 1);
      KeptEndAfterFirst(text, from, max);
      JoinAfterFirst(text, from, amp, KeptEnd(text, from, max), Pairs(text, amp + 1, max - 1));
    } else {
      OnePair(text, from, max);
      JoinLast(PairOf(text, from, KeptEnd(text, from, max)));
    }
  }

  lemma OnePair(text: string, from: nat, max: nat)
    requires from <= |text| && max > 0 && (IndexFrom(text, from, '&') == |text| || max == 1)
    ensures Pairs(text, from, max) == [PairOf(text, from, KeptEnd(text, from, max))]
    ensures PairOf(text, from, KeptEnd(text, from, max)).Text() == text[from..KeptEnd(text, from, max)]
  {
    hide PairOf, Pair.Text, Count, IndexFrom;
    CountAfterFirst(text, from);
  }

  lemma MorePairs(text: string, from: nat, max: nat, amp: nat)
    requires from <= |text| && max > 1 && amp == IndexFrom(text, from, '&') && amp < |text|
    ensures Pairs(text, from, max) == [PairOf(text, from, amp)] + Pairs(text, amp + 1, max - 1)
  {
    hide PairOf, IndexFrom;
  }

  lemma SomePairs(text: string, from: nat, max: nat)
    requires from <= |text| && max > 0
    ensures Pairs(text, from, max) != []
  {
    hide PairOf, IndexFrom;
  }

  lemma JoinLast(pair: Pair)
    ensures Join([pair]) == pair.Text()
  {
  }

  lemma KeptEndAfterFirst(text: string, from: nat, max: nat)
    requires from <= |text| && max > 1 && IndexFrom(text, from, '&') < |text|
    ensures KeptEnd(text, from, max) == KeptEnd(text, IndexFrom(text, from, '&') + 1, max - 1)
  {
    CountAfterFirst(text, from);
  }

  lemma JoinAfterFirst(text: string, from: nat, amp: nat, end: nat, rest: seq<Pair>)
    requires from <= amp < end <= |text| && text[amp] == '&' && rest != [] && Join(rest) == text[amp + 1..end]
    ensures Join([PairOf(text, from, amp)] + rest) == text[from..end]
  {
  }

  // ----- The splitter -----

  /** A terminated slice of the buffer. */
  predicate Holds(buffer: seq<char>, at: nat, s: string) {
    at + |s| < |buffer| && buffer[at..at + |s|] == s && buffer[at + |s|] == '\0'
  }

  /** From `from` to its end the buffer still reads as the text, and the terminator follows. */
  ghost predicate Reads(buffer: seq<char>, text: string, from: nat, stop: nat) {
    from <= stop <= |text| && stop < |buffer| && buffer[stop] == '\0' && forall i :: from <= i < stop ==>
      buffer[i] == text[i]
  }

  /** strchr: where `c` first occurs in the C string that starts at `from`. */
  method StrChr(buffer: array<char>, from: nat, c: char, ghost text: string, ghost stop: nat)
    returns (found: Option<nat>)
    requires c != '\0' && '\0' !in text && Reads(buffer[..], text, from, stop)
    ensures found == if IndexFrom(text, from, c) < stop then Some(IndexFrom(text, from, c)) else None
  {
    var k := from;
    while buffer[k] != '\0' && buffer[k] != c
      invariant from <= k <= stop && IndexFrom(text, from, c) == IndexFrom(text, k, c)
      decreases stop - k
    {
      assert buffer[k] == buffer[..][k];
      k := k + 1;
    }
    assert buffer[k] == buffer[..][k];
    found := if buffer[k] == c then Some(k) else None;
  }

  /** The `k`-th answer of the splitter stands in the buffer. */
  ghost predicate Answered(buffer: seq<char>, pair: Pair, name: nat, value: Option<nat>) {
    && Holds(buffer, name, pair.name)
    && (pair.value.None? ==> value == None)
    && (pair.value.Some? ==> value == Some(name + |pair.name| + 1) && Holds(buffer, value.value, pair.value.value))
  }

  /** The first `n` answers stand in the buffer, one after the other up to `end`. */
  ghost predicate Done(buffer: seq<char>, all: seq<Pair>, names: seq<nat>, values: seq<Option<nat>>, n: nat, end: nat) {
    && n <= |all| && n <= |names| && n <= |values|
    && (forall k :: 0 <= k < n ==> Answered(buffer, all[k], names[k], values[k]))
    && (forall k :: 0 <= k < n ==> names[k] + |all[k].Text()| < end)
    && (forall k :: 0 <= k < n - 1 ==> names[k] + |all[k].Text()| + 1 == names[k + 1])
    && (if n == 0 then end == 0 else names[n - 1] + |all[n - 1].Text()| + 1 == end)
  }

  /** What the splitter has still to answer from `at` on. */
  ghost predicate Remaining(all: seq<Pair>, n: nat, text: string, at: nat)
    requires n <= |all| && n <= MAX_CGI_PARAMETERS && at <= |text|
  {
    all[n..] == Pairs(text, at, MAX_CGI_PARAMETERS - n)
  }

  /** Later writes go past the end of an answer, so it stays. */
  lemma AnswerStays(before: seq<char>, after: seq<char>, pair: Pair, name: nat, value: Option<nat>, limit: nat)
    requires |before| == |after| && Answered(before, pair, name, value) && name + |pair.Text()| < limit
    requires forall k :: 0 <= k < |before| && k < limit ==> before[k] == after[k]
    ensures Answered(after, pair, name, value)
  {
  }

  lemma OneMoreDone(before: seq<char>, after: seq<char>, all: seq<Pair>, names: seq<nat>, values: seq<Option<nat>>,
                    n: nat, end: nat, value: Option<nat>)
    requires |before| == |after| && Done(before, all, names, values, n, end)
    requires n < |all| && n < |names| && n < |values|
    requires forall k :: 0 <= k < |before| && k < end ==> before[k] == after[k]
    requires Answered(after, all[n], end, value)
    ensures Done(after, all, names[n := end], values[n := value], n + 1, end + |all[n].Text()| + 1)
  {
    hide Answered, Pair.Text;
    forall k | 0 <= k < n ensures Answered(after, all[k], names[k], values[k]) {
      AnswerStays(before, after, all[k], names[k], values[k], end);
    }
  }

  /** extract_uri_parameters. Names and values come out as offsets of terminated slices of
      the buffer, one after the other without overlap. */
  method ExtractUriParameters(params: array<char>, names: array<nat>, values: array<Option<nat>>, ghost text: string)
    returns (loop: nat)
    requires '\0' !in text && Reads(params[..], text, 0, |text|)
    requires names.Length == values.Length == MAX_CGI_PARAMETERS
    modifies params, names, values
    ensures loop == if text == "" then 0 else |Pairs(text, 0, MAX_CGI_PARAMETERS)|
    ensures loop <= MAX_CGI_PARAMETERS
    ensures forall k :: 0 <= k < loop ==>
            Answered(params[..], Pairs(text, 0, MAX_CGI_PARAMETERS)[k], names[k], values[k])
    ensures forall k :: 0 <= k < loop - 1 ==>
              names[k] + |Pairs(text, 0, MAX_CGI_PARAMETERS)[k].Text()| + 1 == names[k + 1]
  {
    hide PairOf, Pair.Text, Answered, Done, Pairs, Remaining, Count, IndexFrom;
    if params[0] == '\0' {
      assert params[..][0] == '\0';
      return 0;
    }
    assert params[..][0] == params[0];
    PairCount(text, 0, MAX_CGI_PARAMETERS);
    ghost var all := Pairs(text, 0, MAX_CGI_PARAMETERS);
    ghost var end: nat := 0;
    var pair: Option<nat> := Some(0);
    loop := 0;
    AnswersBegin(params[..], all, names[..], values[..], text);
    while loop < MAX_CGI_PARAMETERS && pair.Some?
      invariant loop <= |all| && loop <= MAX_CGI_PARAMETERS
      invariant pair.Some? ==> pair.value == end && Reads(params[..], text, end, |text|)
      invariant pair.Some? ==> end <= |text| && Remaining(all, loop, text, end)
      invariant pair.None? ==> loop == |all|
      invariant Done(params[..], all, names[..], values[..], loop, end)
      decreases MAX_CGI_PARAMETERS - loop
    {
      pair, end := ExtractOne(params, names, values, loop, pair.value, text, all);
      loop := loop + 1;
    }
    AllDone(params[..], all, names[..], values[..], loop, end);
  }

  /** One round of the loop: the pair at `start` is cut out and recorded. */
  method ExtractOne(params: array<char>, names: array<nat>, values: array<Option<nat>>, loop: nat, start: nat,
                    ghost text: string, ghost all: seq<Pair>)
    returns (next: Option<nat>, ghost end: nat)
    requires '\0' !in text && Reads(params[..], text, start, |text|)
    requires names.Length == values.Length == MAX_CGI_PARAMETERS && loop < MAX_CGI_PARAMETERS
    requires loop <= |all| && Remaining(all, loop, text, start)
    requires Done(params[..], all, names[..], values[..], loop, start)
    modifies params, names, values
    ensures loop < |all| && Done(params[..], all, names[..], values[..], loop + 1, end)
    ensures next.Some? ==>
            next.value == end && Reads(params[..], text, end, |text|) && Remaining(all, loop + 1, text, end)
    ensures next.None? ==> loop + 1 == |all|
  {
    hide PairOf, Pair.Text, Answered, Done;
    ghost var before, oldNames, oldValues := params[..], names[..], values[..];
    names[loop] := start;
    ghost var stop;
    next, stop := CutPair(params, start, text);
    var value := CutValue(params, start, text, stop);
    values[loop] := value;
    assert all[loop] == all[loop..][0] == PairOf(text, start, stop);
    OneMoreDone(before, params[..], all, oldNames, oldValues, loop, start, value);
    assert names[..] == oldNames[loop := start] && values[..] == oldValues[loop := value];
    end := stop + 1;
    if next.Some? {
      assert all[loop + 1..] == all[loop..][1..];
    } else {
      assert |all[loop..]| == 1;
    }
  }

  lemma AnswersBegin(buffer: seq<char>, all: seq<Pair>, names: seq<nat>, values: seq<Option<nat>>, text: string)
    requires all == Pairs(text, 0, MAX_CGI_PARAMETERS)
    ensures Done(buffer, all, names, values, 0, 0) && Remaining(all, 0, text, 0)
  {
  }

  lemma AllDone(buffer: seq<char>, all: seq<Pair>, names: seq<nat>, values: seq<Option<nat>>, n: nat, end: nat)
    requires Done(buffer, all, names, values, n, end)
    ensures n <= |all| && n <= |names| && n <= |values|
    ensures forall k :: 0 <= k < n ==> Answered(buffer, all[k], names[k], values[k])
    ensures forall k :: 0 <= k < n - 1 ==> names[k] + |all[k].Text()| + 1 == names[k + 1]
  {
  }

  /** End the pair at `start` with a terminator, at the next ampersand or else the first space. */
  method CutPair(params: array<char>, start: nat, ghost text: string) returns (next: Option<nat>, ghost stop: nat)
    requires '\0' !in text && Reads(params[..], text, start, |text|)
    modifies params
    ensures stop == IndexFrom(text, start, if IndexFrom(text, start, '&') < |text| then '&' else ' ')
    ensures next == if IndexFrom(text, start, '&') < |text| then Some(stop + 1) else None
    ensures Reads(params[..], text, start, stop)
    ensures next.Some? ==> Reads(params[..], text, next.value, |text|)
    ensures forall k :: 0 <= k < start ==> params[k] == old(params[k])
  {
    var amp := StrChr(params, start, '&', text, |text|);
    if amp.Some? {
      params[amp.value] := '\0';
      next, stop := Some(amp.value + 1), amp.value;
    } else {
      var space := StrChr(params, start, ' ', text, |text|);
      if space.Some? {
        params[space.value] := '\0';
      }
      next, stop := None, IndexFrom(text, start, ' ');
    }
  }

  /** Separate the value from the name at the first equals sign of the pair at `start`. */
  method CutValue(params: array<char>, start: nat, ghost text: string, ghost stop: nat) returns (value: Option<nat>)
    requires '\0' !in text && Reads(params[..], text, start, stop)
    modifies params
    ensures Answered(params[..], PairOf(text, start, stop), start, value)
    ensures forall k :: 0 <= k < params.Length && !(start <= k < stop) ==> params[k] == old(params[k])
  {
    hide Answered, PairOf;
    var equals := StrChr(params, start, '=', text, stop);
    if equals.Some? {
      CutPairAnswers(params[..], text, start, equals.value, stop);
      params[equals.value] := '\0';
      value := Some(equals.value + 1);
    } else {
      WholePairAnswers(params[..], text, start, stop);
      value := None;
    }
  }

  lemma CutPairAnswers(buffer: seq<char>, text: string, start: nat, equals: nat, stop: nat)
    requires Reads(buffer, text, start, stop) && start <= equals < stop && IndexFrom(text, start, '=') == equals
    ensures Answered(buffer[equals := '\0'], PairOf(text, start, stop), start, Some(equals + 1))
  {
    var after := buffer[equals := '\0'];
    assert after[start..equals] == text[start..equals];
    assert after[equals + 1..stop] == text[equals + 1..stop];
  }

  lemma WholePairAnswers(buffer: seq<char>, text: string, start: nat, stop: nat)
    requires Reads(buffer, text, start, stop) && IndexFrom(text, start, '=') >= stop
    ensures Answered(buffer, PairOf(text, start, stop), start, None)
  {
    assert buffer[start..stop] == text[start..stop];
  }
}
