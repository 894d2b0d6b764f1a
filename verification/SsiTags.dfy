/** Server-side includes as a function of the file: which tags a page contains and what the
    client should receive for it. Nothing here knows about cursors, windows or refusals. */
module SsiTags {
  import opened Common

  const TAG_LEAD_IN := "<!--#"
  const TAG_LEAD_OUT := "-->"
  const MAX_TAG_NAME_LEN := 8
  const MAX_TAG_INSERT_LEN := 192
  const UNKNOWN_TAG1_TEXT := "<b>***UNKNOWN TAG "
  const UNKNOWN_TAG2_TEXT := "***</b>"

  predicate IsSpace(c: char) {
    c == ' ' || c == '\t' || c == '\n' || c == '\r'
  }

  // ----- The recogniser, one character at a time -----

  datatype Recogniser =
    | Text
    | LeadIn(matched: nat)
    | Name(name: string)
    | LeadOut(name: string, matched: nat)
  {
    predicate Valid() {
      match this
      case Text => true
      case LeadIn(k) => 1 <= k <= |TAG_LEAD_IN|
      case Name(n) => |n| <= MAX_TAG_NAME_LEN && IsTagName(n)
      case LeadOut(n, k) => 0 < |n| <= MAX_TAG_NAME_LEN && IsTagName(n) && k < |TAG_LEAD_OUT|
    }
  }

  datatype Fed = Fed(next: Recogniser, tag: Option<string>)

  predicate IsTagName(n: string) {
    forall k :: 0 <= k < |n| ==> n[k] != '-' && !IsSpace(n[k])
  }

  function FeedName(n: string, c: char): Fed {
    if n == "" && IsSpace(c) then Fed(Name(n), None)
    else if c == TAG_LEAD_OUT[0] || IsSpace(c) then
      if n == "" then Fed(Text, None)
      else Fed(LeadOut(n, if c == TAG_LEAD_OUT[0] then 1 else 0), None)
    else if |n| < MAX_TAG_NAME_LEN then Fed(Name(n + [c]), None)
    else Fed(Text, None)
  }

  function Feed(r: Recogniser, c: char): (f: Fed)
    requires r.Valid()
    ensures f.next.Valid()
  {
    match r
    case Text => Fed(if c == TAG_LEAD_IN[0] then LeadIn(1) else Text, None)
    case LeadIn(k) =>
      if k == |TAG_LEAD_IN| then FeedName("", c)
      else if c == TAG_LEAD_IN[k] then Fed(LeadIn(k + 1), None)
      else Fed(Text, None)
    case Name(n) => FeedName(n, c)
    case LeadOut(n, k) =>
      if k == 0 && IsSpace(c) then Fed(r, None)
      else if c == TAG_LEAD_OUT[k] then
        if k == |TAG_LEAD_OUT| - 1 then Fed(Text, Some(n)) else Fed(LeadOut(n, k + 1), None)
      else Fed(Text, None)
  }

  /** The recogniser's state after the first `n` characters of a page. */
  function StateAfter(page: string, n: nat): (r: Recogniser)
    requires n <= |page|
    ensures r.Valid()
  {
    if n == 0 then Text else Feed(StateAfter(page, n - 1), page[n - 1]).next
  }

  /** The tag whose last character is the `n`-th of the page, if there is one. */
  function TagEnding(page: string, n: nat): Option<string>
    requires n <= |page|
  {
    if n == 0 then None else Feed(StateAfter(page, n - 1), page[n - 1]).tag
  }

  function TagCount(page: string, n: nat): nat
    requires n <= |page|
  {
    if n == 0 then 0 else TagCount(page, n - 1) + (if TagEnding(page, n).Some? then 1 else 0)
  }

  // ----- What replaces a tag -----

  /** The application: the tag names it registered and its handler. The handler may answer
      differently each time, so its answers are indexed by how many tags came before. */
  datatype SsiConfig = SsiConfig(registered: bool, tags: seq<string>, handler: (nat, nat) -> string) {
    /** What the handler interface promises: at most MAX_TAG_INSERT_LEN characters. */
    ghost predicate Valid() {
      forall call: nat, tag: nat :: |handler(call, tag)| <= MAX_TAG_INSERT_LEN
    }
  }

  function FirstIndex(tags: seq<string>, name: string): (k: nat)
    ensures k <= |tags| && name !in tags[..k]
    ensures k < |tags| ==> tags[k] == name
  {
    if tags == [] || tags[0] == name then 0 else 1 + FirstIndex(tags[1..], name)
  }

  lemma FirstIndexIs(tags: seq<string>, name: string, k: nat)
    requires k < |tags| && tags[k] == name && name !in tags[..k]
    ensures FirstIndex(tags, name) == k
  {
  }

  /** What the client is to see after the `call`-th tag of the page, for the tag's C string. */
  function InsertFor(cfg: SsiConfig, call: nat, name: string): string {
    var k := FirstIndex(cfg.tags, name);
    if cfg.registered && k < |cfg.tags| then cfg.handler(call, k)
    else UNKNOWN_TAG1_TEXT + name + UNKNOWN_TAG2_TEXT
  }

  /** The insert that belongs right after the `n`-th character. */
  function InsertAt(cfg: SsiConfig, page: string, n: nat): string
    requires n <= |page|
  {
    match TagEnding(page, n)
    case None => ""
    case Some(name) => InsertFor(cfg, TagCount(page, n - 1), CString(name))
  }

  /** The page up to its `n`-th character, every recognised tag followed by its insert. */
  function Expand(cfg: SsiConfig, page: string, n: nat): string
    requires n <= |page|
  {
    if n == 0 then "" else Expand(cfg, page, n - 1) + [page[n - 1]] + InsertAt(cfg, page, n)
  }

  lemma {:induction false} ExpandIsMonotone(cfg: SsiConfig, page: string, m: nat, n: nat)
    requires m <= n <= |page|
    ensures Expand(cfg, page, m) <= Expand(cfg, page, n)
  {
    hide InsertAt;
    if m < n {
      ExpandIsMonotone(cfg, page, m, n - 1);
    }
  }

  /** A page without tags is sent as it is. */
  lemma {:induction false} ExpandWithoutTags(cfg: SsiConfig, page: string, n: nat)
    requires n <= |page|
    requires TagCount(page, n) == 0
    ensures Expand(cfg, page, n) == page[..n]
  {
    if n > 0 {
      ExpandWithoutTags(cfg, page, n - 1);
    }
  }

  // ----- The recogniser against the written form of a tag -----

  predicate AllSpace(s: string) {
    forall k :: 0 <= k < |s| ==> IsSpace(s[k])
  }

  function TagText(before: string, name: string, after: string): string {
    TAG_LEAD_IN + before + name + after + TAG_LEAD_OUT
  }

  predicate EndsWith(page: string, n: nat, s: string)
    requires n <= |page|
  {
    |s| <= n && page[n - |s|..n] == s
  }

  /** The `n` characters end with a tag of this name, with any space around the name. */
  ghost predicate TagWritten(page: string, n: nat, name: string)
    requires n <= |page|
  {
    exists before, after :: AllSpace(before) && AllSpace(after) && EndsWith(page, n, TagText(before, name, after))
  }

  /** What a recogniser state says about the characters just read. */
  ghost predicate Explains(r: Recogniser, page: string, n: nat)
    requires r.Valid() && n <= |page|
  {
    match r
    case Text => true
    case LeadIn(k) => EndsWith(page, n, TAG_LEAD_IN[..k])
    case Name(name) =>
      exists before :: AllSpace(before) && EndsWith(page, n, TAG_LEAD_IN + before + name)
    case LeadOut(name, k) =>
      exists before, after :: AllSpace(before) && AllSpace(after) &&
        EndsWith(page, n, TAG_LEAD_IN + before + name + after + TAG_LEAD_OUT[..k])
  }

  lemma EndsWithNext(page: string, n: nat, s: string)
    requires n < |page| && EndsWith(page, n, s)
    ensures EndsWith(page, n + 1, s + [page[n]])
  {
    assert page[n - |s|..n + 1] == page[n - |s|..n] + [page[n]];
  }

  /** Sound: every recognised tag was written lead-in, spaces, name, spaces, lead-out. */
  lemma {:induction false} RecognisedTagWasWritten(page: string, n: nat)
    requires n <= |page|
    ensures Explains(StateAfter(page, n), page, n)
    ensures TagEnding(page, n).Some? ==>
              var name := TagEnding(page, n).value;
              0 < |name| <= MAX_TAG_NAME_LEN && IsTagName(name) &&
              TagWritten(page, n, name)
  {
    hide Feed, Explains, TagWritten;
    if n > 0 {
      RecognisedTagWasWritten(page, n - 1);
      ExplainsNext(StateAfter(page, n - 1), page, n - 1);
      NamesAreValid(StateAfter(page, n - 1));
    } else {
      NothingExplained(page);
    }
  }

  lemma NothingExplained(page: string)
    ensures Explains(Text, page, 0)
  {
  }

  lemma NamesAreValid(r: Recogniser)
    requires r.Valid()
    ensures r.LeadOut? ==> 0 < |r.name| <= MAX_TAG_NAME_LEN && IsTagName(r.name)
  {
  }

  lemma ExplainsName(name: string, before: string, page: string, n: nat)
    requires |name| <= MAX_TAG_NAME_LEN && IsTagName(name)
    requires n < |page| && AllSpace(before) && EndsWith(page, n, TAG_LEAD_IN + before + name)
    ensures FeedName(name, page[n]).next.Valid() && Explains(FeedName(name, page[n]).next, page, n + 1)
  {
    hide EndsWith;
    var c := page[n];
    EndsWithNext(page, n, TAG_LEAD_IN + before + name);
    if name == "" && IsSpace(c) {
      assert TAG_LEAD_IN + before + name + [c] == TAG_LEAD_IN + (before + [c]) + name;
      assert AllSpace(before + [c]);
    } else if c == '-' && name != "" {
      assert TAG_LEAD_IN + before + name + [c] == TAG_LEAD_IN + before + name + "" + TAG_LEAD_OUT[..1];
      assert AllSpace("");
    } else if IsSpace(c) {
      assert TAG_LEAD_IN + before + name + [c] == TAG_LEAD_IN + before + name + [c] + TAG_LEAD_OUT[..0];
      assert AllSpace([c]);
    } else {
      assert TAG_LEAD_IN + before + name + [c] == TAG_LEAD_IN + before + (name + [c]);
    }
  }

  lemma ExplainsNext(r: Recogniser, page: string, n: nat)
    requires r.Valid() && n < |page| && Explains(r, page, n)
    ensures Explains(Feed(r, page[n]).next, page, n + 1)
    ensures Feed(r, page[n]).tag.Some? ==>
              r.LeadOut? && Feed(r, page[n]).tag.value == r.name && TagWritten(page, n + 1, r.name)
  {
    hide EndsWith, FeedName;
    match r
    case Text => ExplainsText(page, n);
    case LeadIn(k) => ExplainsLeadIn(k, page, n);
    case Name(name) =>
      var before :| AllSpace(before) && EndsWith(page, n, TAG_LEAD_IN + before + name);
      ExplainsName(name, before, page, n);
      NameEndsNoTag(name, page[n]);
    case LeadOut(name, k) =>
      ExplainsLeadOut(name, k, page, n);
  }

  lemma NameEndsNoTag(name: string, c: char)
    ensures FeedName(name, c).tag == None
  {
  }

  lemma ExplainsText(page: string, n: nat)
    requires n < |page|
    ensures Explains(Feed(Text, page[n]).next, page, n + 1) && Feed(Text, page[n]).tag == None
  {
    hide EndsWith;
    assert EndsWith(page, n, "") by { EndsWithNothing(page, n); }
    EndsWithNext(page, n, "");
    assert TAG_LEAD_IN[..1] == "" + [TAG_LEAD_IN[0]];
  }

  lemma EndsWithNothing(page: string, n: nat)
    requires n <= |page|
    ensures EndsWith(page, n, "")
  {
  }

  lemma ExplainsLeadIn(k: nat, page: string, n: nat)
    requires LeadIn(k).Valid() && n < |page| && Explains(LeadIn(k), page, n)
    ensures Explains(Feed(LeadIn(k), page[n]).next, page, n + 1) && Feed(LeadIn(k), page[n]).tag == None
  {
    hide EndsWith, FeedName;
    EndsWithNext(page, n, TAG_LEAD_IN[..k]);
    if k == |TAG_LEAD_IN| {
      assert TAG_LEAD_IN[..k] == TAG_LEAD_IN + "" + "";
      assert AllSpace("");
      ExplainsName("", "", page, n);
      NameEndsNoTag("", page[n]);
    } else if page[n] == TAG_LEAD_IN[k] {
      assert TAG_LEAD_IN[..k + 1] == TAG_LEAD_IN[..k] + [page[n]];
    }
  }

  lemma ExplainsLeadOut(name: string, k: nat, page: string, n: nat)
    requires LeadOut(name, k).Valid() && n < |page| && Explains(LeadOut(name, k), page, n)
    ensures Explains(Feed(LeadOut(name, k), page[n]).next, page, n + 1)
    ensures Feed(LeadOut(name, k), page[n]).tag.Some? ==>
              Feed(LeadOut(name, k), page[n]).tag.value == name && TagWritten(page, n + 1, name)
  {
    hide EndsWith;
    var c := page[n];
    var before, after :| AllSpace(before) && AllSpace(after) &&
      EndsWith(page, n, TAG_LEAD_IN + before + name + after + TAG_LEAD_OUT[..k]);
    var seen := TAG_LEAD_IN + before + name + after;
    EndsWithNext(page, n, seen + TAG_LEAD_OUT[..k]);
    if k == 0 && IsSpace(c) {
      assert seen + TAG_LEAD_OUT[..0] + [c] == TAG_LEAD_IN + before + name + (after + [c]) + TAG_LEAD_OUT[..0];
      assert AllSpace(after + [c]);
    } else if c == TAG_LEAD_OUT[k] {
      assert TAG_LEAD_OUT[..k + 1] == TAG_LEAD_OUT[..k] + [c];
      assert seen + TAG_LEAD_OUT[..k] + [c] == seen + TAG_LEAD_OUT[..k + 1];
      assert TAG_LEAD_OUT[..3] == TAG_LEAD_OUT;
    }
  }

  /** A tag ends with its lead-out. */
  lemma LeadOutEndsTag(page: string, n: nat)
    requires n <= |page| && TagEnding(page, n).Some?
    ensures EndsWith(page, n, TAG_LEAD_OUT)
  {
    hide TagEnding, EndsWith, StateAfter;
    RecognisedTagWasWritten(page, n);
    var name := TagEnding(page, n).value;
    var before, after :| AllSpace(before) && AllSpace(after) && EndsWith(page, n, TagText(before, name, after));
    EndsWithMore(page, n, TAG_LEAD_IN + before + name + after, TAG_LEAD_OUT);
  }

  lemma EndsWithMore(page: string, n: nat, s: string, end: string)
    requires n <= |page| && EndsWith(page, n, s + end)
    ensures EndsWith(page, n, end)
  {
    assert page[n - |end|..n] == page[n - |s + end|..n][|s|..];
  }

  /** Complete: from ordinary text, a tag so written is recognised at its last character. */
  lemma WrittenTagIsRecognised(page: string, n: nat, before: string, name: string, after: string)
    requires n <= |page| && StateAfter(page, n) == Text
    requires AllSpace(before) && AllSpace(after)
    requires 0 < |name| <= MAX_TAG_NAME_LEN && IsTagName(name)
    requires TagText(before, name, after) <= page[n..]
    ensures TagEnding(page, n + |TagText(before, name, after)|) == Some(name)
    ensures StateAfter(page, n + |TagText(before, name, after)|) == Text
  {
    hide StateAfter, TagEnding;
    TagTextRead(page, n, before, name, after);
    LeadInRead(page, n);
    var at := n + |TAG_LEAD_IN|;
    SpacesBeforeName(page, at, before, name[0]);
    at := at + |before|;
    assert name[..1] == [name[0]];
    NameRead(page, at, name, 1);
    at := at + |name|;
    SpacesAfterName(page, at, name, after);
    LeadOutRead(page, at + |after|, name);
  }

  /** Where the parts of a tag are found in the page. */
  lemma TagTextRead(page: string, n: nat, before: string, name: string, after: string)
    requires n <= |page| && TagText(before, name, after) <= page[n..]
    ensures n + |TAG_LEAD_IN| + |before| + |name| + |after| + |TAG_LEAD_OUT| <= |page|
    ensures forall k :: 0 <= k < |TAG_LEAD_IN| ==> page[n + k] == TAG_LEAD_IN[k]
    ensures forall k :: 0 <= k < |before| ==> page[n + |TAG_LEAD_IN| + k] == before[k]
    ensures forall k :: 0 <= k < |name| ==> page[n + |TAG_LEAD_IN| + |before| + k] == name[k]
    ensures forall k :: 0 <= k < |after| ==> page[n + |TAG_LEAD_IN| + |before| + |name| + k] == after[k]
    ensures forall k :: 0 <= k < |TAG_LEAD_OUT| ==>
              page[n + |TAG_LEAD_IN| + |before| + |name| + |after| + k] == TAG_LEAD_OUT[k]
  {
  }

  lemma LeadOutRead(page: string, n: nat, name: string)
    requires 0 < |name| <= MAX_TAG_NAME_LEN && IsTagName(name)
    requires n + |TAG_LEAD_OUT| <= |page| && StateAfter(page, n + 1) == LeadOut(name, 1)
    requires forall k :: 0 <= k < |TAG_LEAD_OUT| ==> page[n + k] == TAG_LEAD_OUT[k]
    ensures TagEnding(page, n + |TAG_LEAD_OUT|) == Some(name) && StateAfter(page, n + |TAG_LEAD_OUT|) == Text
  {
  }

  lemma LeadInRead(page: string, n: nat)
    requires n + |TAG_LEAD_IN| <= |page| && StateAfter(page, n) == Text
    requires forall k :: 0 <= k < |TAG_LEAD_IN| ==> page[n + k] == TAG_LEAD_IN[k]
    ensures StateAfter(page, n + |TAG_LEAD_IN|) == LeadIn(|TAG_LEAD_IN|)
  {
    assert StateAfter(page, n + 1) == LeadIn(1);
    assert StateAfter(page, n + 2) == LeadIn(2);
    assert StateAfter(page, n + 3) == LeadIn(3);
    assert StateAfter(page, n + 4) == LeadIn(4);
  }

  /** Leading space is skipped, and the first character of the name is taken. */
  lemma {:induction false} SpacesBeforeName(page: string, n: nat, before: string, first: char)
    requires n + |before| < |page| && AllSpace(before) && !IsSpace(first) && first != '-'
    requires StateAfter(page, n) == LeadIn(|TAG_LEAD_IN|) || StateAfter(page, n) == Name("")
    requires forall k :: 0 <= k < |before| ==> page[n + k] == before[k]
    requires page[n + |before|] == first
    ensures StateAfter(page, n + |before| + 1) == Name([first])
    decreases |before|
  {
    if before == "" {
      assert [first] == "" + [first];
    } else {
      assert IsSpace(before[0]) && page[n + 0] == before[0];
      assert StateAfter(page, n + 1) == Name("");
      forall k | 0 <= k < |before| - 1 ensures page[n + 1 + k] == before[1..][k] {
        assert page[n + (k + 1)] == before[k + 1];
      }
      SpacesBeforeName(page, n + 1, before[1..], first);
    }
  }

  lemma {:induction false} NameRead(page: string, n: nat, name: string, k: nat)
    requires 1 <= k <= |name| <= MAX_TAG_NAME_LEN && IsTagName(name) && n + |name| <= |page|
    requires forall i :: 0 <= i < |name| ==> page[n + i] == name[i]
    requires StateAfter(page, n + k) == Name(name[..k])
    ensures StateAfter(page, n + |name|) == Name(name)
    decreases |name| - k
  {
    if k == |name| {
      assert name[..k] == name;
    } else {
      assert page[n + k] == name[k] && name[..k + 1] == name[..k] + [name[k]];
      NameRead(page, n, name, k + 1);
    }
  }

  lemma {:induction false} SpacesAfterName(page: string, n: nat, name: string, after: string)
    requires 0 < |name| <= MAX_TAG_NAME_LEN && IsTagName(name) && AllSpace(after)
    requires n + |after| < |page| && page[n + |after|] == '-'
    requires StateAfter(page, n) == Name(name) || StateAfter(page, n) == LeadOut(name, 0)
    requires forall k :: 0 <= k < |after| ==> page[n + k] == after[k]
    ensures StateAfter(page, n + |after| + 1) == LeadOut(name, 1)
    decreases |after|
  {
    if after != "" {
      assert IsSpace(after[0]) && page[n + 0] == after[0];
      forall k | 0 <= k < |after| - 1 ensures page[n + 1 + k] == after[1..][k] {
        assert page[n + (k + 1)] == after[k + 1];
      }
      SpacesAfterName(page, n + 1, name, after[1..]);
    }
  }

  // ----- What the client sees for text and for a tag -----

  lemma TextStep(page: string, n: nat)
    requires n < |page| && StateAfter(page, n) == Text && page[n] != '<'
    ensures StateAfter(page, n + 1) == Text && TagEnding(page, n + 1) == None
  {
  }

  lemma NoInsert(cfg: SsiConfig, page: string, n: nat)
    requires n < |page| && TagEnding(page, n + 1) == None
    ensures Expand(cfg, page, n + 1) == Expand(cfg, page, n) + [page[n]]
    ensures TagCount(page, n + 1) == TagCount(page, n)
  {
    hide TagEnding;
  }

  /** Text in which no tag begins is sent as it is. */
  lemma {:induction false} TextIsSent(cfg: SsiConfig, page: string, n: nat, text: string)
    requires n <= |page| && StateAfter(page, n) == Text && text <= page[n..] && '<' !in text
    ensures StateAfter(page, n + |text|) == Text && Expand(cfg, page, n + |text|) == Expand(cfg, page, n) + text
    ensures TagCount(page, n + |text|) == TagCount(page, n)
    decreases |text|
  {
    hide StateAfter, Expand, TagCount, TagEnding;
    if text == "" {
      assert Expand(cfg, page, n) + text == Expand(cfg, page, n);
    } else {
      var last := |text| - 1;
      assert text == text[..last] + [text[last]];
      TextIsSent(cfg, page, n, text[..last]);
      assert page[n + last] == page[n..][last] == text[last];
      assert text[last] in text;
      TextStep(page, n + last);
      NoInsert(cfg, page, n + last);
    }
  }

  /** A registered tag is followed by what the handler answers for the first name equal to its own; the
      handler is told how many tags came before. */
  lemma RegisteredTagIsReplaced(cfg: SsiConfig, page: string, n: nat, before: string, name: string, after: string,
                                k: nat)
    requires n <= |page| && StateAfter(page, n) == Text && TagText(before, name, after) <= page[n..]
    requires AllSpace(before) && AllSpace(after) && 0 < |name| <= MAX_TAG_NAME_LEN && IsTagName(name)
    requires cfg.registered && k < |cfg.tags| && cfg.tags[k] == CString(name) && cfg.tags[k] !in cfg.tags[..k]
    ensures var end := n + |TagText(before, name, after)|;
            && StateAfter(page, end) == Text && TagCount(page, end) == TagCount(page, n) + 1
            && Expand(cfg, page, end) ==
               Expand(cfg, page, n) + TagText(before, name, after) + cfg.handler(TagCount(page, n), k)
  {
    hide Expand, StateAfter, TagCount;
    TagIsFollowed(cfg, page, n, before, name, after);
    FirstIndexIs(cfg.tags, CString(name), k);
  }

  /** Any other tag is followed by the text that reports it. */
  lemma UnknownTagIsReported(cfg: SsiConfig, page: string, n: nat, before: string, name: string, after: string)
    requires n <= |page| && StateAfter(page, n) == Text && TagText(before, name, after) <= page[n..]
    requires AllSpace(before) && AllSpace(after) && 0 < |name| <= MAX_TAG_NAME_LEN && IsTagName(name)
    requires !cfg.registered || CString(name) !in cfg.tags
    ensures var end := n + |TagText(before, name, after)|;
            && StateAfter(page, end) == Text && TagCount(page, end) == TagCount(page, n) + 1
            && Expand(cfg, page, end) ==
               Expand(cfg, page, n) + TagText(before, name, after)
               + ("<b>***UNKNOWN TAG " + CString(name) + "***</b>")
  {
    hide Expand, StateAfter, TagCount;
    TagIsFollowed(cfg, page, n, before, name, after);
  }

  lemma TagIsFollowed(cfg: SsiConfig, page: string, n: nat, before: string, name: string, after: string)
    requires n <= |page| && StateAfter(page, n) == Text && TagText(before, name, after) <= page[n..]
    requires AllSpace(before) && AllSpace(after) && 0 < |name| <= MAX_TAG_NAME_LEN && IsTagName(name)
    ensures var end := n + |TagText(before, name, after)|;
            && StateAfter(page, end) == Text && TagCount(page, end) == TagCount(page, n) + 1
            && Expand(cfg, page, end) ==
               Expand(cfg, page, n) + TagText(before, name, after) + InsertFor(cfg, TagCount(page, n), CString(name))
  {
    hide StateAfter, TagEnding, InsertFor, TagText, Expand, TagCount, AllSpace, IsTagName, CString;
    var tag := TagText(before, name, after);
    var end := n + |tag|;
    WrittenTagIsRecognised(page, n, before, name, after);
    forall i | n < i < end ensures TagEnding(page, i) == None {
      NoTagInside(page, n, before, name, after, i);
    }
    TagLength(before, name, after);
    NothingInserted(cfg, page, n, end - 1);
    InsertOne(cfg, page, end, name);
    LastOfSlice(page, n, end);
  }

  /** The last character of a tag brings its insert. */
  lemma InsertOne(cfg: SsiConfig, page: string, n: nat, name: string)
    requires 0 < n <= |page| && TagEnding(page, n) == Some(name)
    ensures TagCount(page, n) == TagCount(page, n - 1) + 1
    ensures Expand(cfg, page, n) ==
            Expand(cfg, page, n - 1) + [page[n - 1]] + InsertFor(cfg, TagCount(page, n - 1), CString(name))
  {
    hide TagEnding, InsertFor;
  }

  lemma LastOfSlice(page: string, m: nat, n: nat)
    requires m < n <= |page|
    ensures page[m..n] == page[m..n - 1] + [page[n - 1]] && page[m..n] == page[m..][..n - m]
  {
  }

  lemma TagLength(before: string, name: string, after: string)
    ensures |TagText(before, name, after)| > 0
  {
  }

  /** No tag ends inside a tag. */
  lemma NoTagInside(page: string, n: nat, before: string, name: string, after: string, i: nat)
    requires n <= |page| && TagText(before, name, after) <= page[n..]
    requires AllSpace(before) && AllSpace(after) && IsTagName(name)
    requires n < i < n + |TagText(before, name, after)|
    ensures TagEnding(page, i) == None
  {
    hide TagEnding, StateAfter, TagText;
    if TagEnding(page, i).Some? {
      var tag := TagText(before, name, after);
      LeadOutEndsTag(page, i);
      LastTwo(page, i);
      assert tag[i - n - 1] == page[n..][i - n - 1] == page[i - 1];
      assert i - n >= 2 ==> tag[i - n - 2] == page[n..][i - n - 2] == page[i - 2];
      InsideTag(before, name, after, i - n);
    }
  }

  lemma LastTwo(page: string, n: nat)
    requires n <= |page| && EndsWith(page, n, TAG_LEAD_OUT)
    ensures n >= 3 && page[n - 2] == '-' && page[n - 1] == '>'
  {
    assert page[n - 3..n][1] == '-' && page[n - 3..n][2] == '>';
  }

  /** Before its last character a tag has a `>` only in the name, and there no hyphen before it. */
  lemma InsideTag(before: string, name: string, after: string, i: nat)
    requires AllSpace(before) && AllSpace(after) && IsTagName(name) && 0 < i < |TagText(before, name, after)|
    ensures TagText(before, name, after)[i - 1] != '>' || (i >= 2 && TagText(before, name, after)[i - 2] != '-')
  {
    var tag := TagText(before, name, after);
    var a := |TAG_LEAD_IN| + |before|;
    if a <= i - 1 < a + |name| {
      NameChar(tag, before, name, after, i - 2);
    } else {
      NotInName(tag, before, name, after, i - 1);
    }
  }

  lemma NotInName(tag: string, before: string, name: string, after: string, j: nat)
    requires tag == TagText(before, name, after) && AllSpace(before) && AllSpace(after) && j < |tag| - 1
    requires !(|TAG_LEAD_IN| + |before| <= j < |TAG_LEAD_IN| + |before| + |name|)
    ensures tag[j] != '>'
  {
    TagTextRead(tag, 0, before, name, after);
    var a := |TAG_LEAD_IN|;
    var b := a + |before|;
    var c := b + |name|;
    var d := c + |after|;
    if j < a {
      assert tag[0 + j] == TAG_LEAD_IN[j];
    } else if j < b {
      assert tag[0 + a + (j - a)] == before[j - a];
    } else if j < d {
      assert tag[0 + a + |before| + |name| + (j - c)] == after[j - c];
    } else {
      assert tag[0 + a + |before| + |name| + |after| + (j - d)] == TAG_LEAD_OUT[j - d];
    }
  }

  /** From the last of the lead-in to the last of the name there is no hyphen. */
  lemma NameChar(tag: string, before: string, name: string, after: string, i: nat)
    requires tag == TagText(before, name, after) && AllSpace(before) && IsTagName(name)
    requires |TAG_LEAD_IN| - 1 <= i < |TAG_LEAD_IN| + |before| + |name|
    ensures i < |tag| && tag[i] != '-'
  {
    TagTextRead(tag, 0, before, name, after);
    var a := |TAG_LEAD_IN|;
    if i < a {
      assert tag[0 + i] == TAG_LEAD_IN[i];
    } else if i < a + |before| {
      assert tag[0 + a + (i - a)] == before[i - a];
    } else {
      assert tag[0 + a + |before| + (i - a - |before|)] == name[i - a - |before|];
    }
  }

  lemma {:induction false} NothingInserted(cfg: SsiConfig, page: string, m: nat, n: nat)
    requires m <= n <= |page| && forall i :: m < i <= n ==> TagEnding(page, i) == None
    ensures Expand(cfg, page, n) == Expand(cfg, page, m) + page[m..n] && TagCount(page, n) == TagCount(page, m)
    decreases n
  {
    hide TagEnding, Expand, TagCount;
    if m < n {
      NothingInserted(cfg, page, m, n - 1);
      NoInsert(cfg, page, n - 1);
      assert page[m..n] == page[m..n - 1] + [page[n - 1]];
    } else {
      assert Expand(cfg, page, m) + page[m..n] == Expand(cfg, page, m);
    }
  }
}
