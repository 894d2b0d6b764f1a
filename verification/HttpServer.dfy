/** The response engine of the raw HTTP server: headers, then a file or a page with tags,
    pushed out through a window that may shrink, refuse or shorten any write. */
module HttpServer {
  import opened Common
  import opened SsiTags
  import opened Tcp

  const NUM_FILE_HDR_STRINGS := 3
  const HTTPD_MAX_RETRIES := 4

  /** A request as `http_init_file` finds it: the header strings if headers are generated,
      the file if one was found, and whether its tags are to be looked for. */
  datatype Page = Page(headers: Option<seq<string>>, file: Option<string>, tagCheck: bool) {
    predicate Valid() {
      && (headers.Some? ==> |headers.value| == NUM_FILE_HDR_STRINGS)
      && (headers.Some? ==> forall h :: h in headers.value ==> |h| <= U16_MAX)
      && (file.None? ==> headers.Some? && !tagCheck)
    }

    function Data(): string {
      if file.Some? then file.value else ""
    }
  }

  function Concat(parts: seq<string>): string {
    if parts == [] then "" else parts[0] + Concat(parts[1..])
  }

  /** The status line, the server's name, and the content type. */
  function ThreeStrings(parts: seq<string>): string {
    if |parts| != NUM_FILE_HDR_STRINGS then "" else parts[0] + parts[1] + parts[2]
  }

  lemma HeadersInOrder(parts: seq<string>)
    requires |parts| == NUM_FILE_HDR_STRINGS
    ensures Concat(parts) == ThreeStrings(parts)
  {
    assert parts[1..][1..][1..] == [];
    assert Concat(parts[1..][1..]) == parts[2];
    assert Concat(parts[1..]) == parts[1] + parts[2];
  }

  function HeaderText(page: Page): string {
    if page.headers.Some? then Concat(page.headers.value) else ""
  }

  function Body(cfg: SsiConfig, page: Page): string {
    if page.tagCheck then Expand(cfg, page.Data(), |page.Data()|) else page.Data()
  }

  /** Everything the client is meant to receive. */
  function Response(cfg: SsiConfig, page: Page): string {
    HeaderText(page) + Body(cfg, page)
  }

  /** The insert of a tag that ends on the very last byte: the parse loop stops before it. */
  function LostInsert(cfg: SsiConfig, page: Page): string {
    if page.tagCheck then InsertAt(cfg, page.Data(), |page.Data()|) else ""
  }

  /** How much of what was offered a write has taken. */
  function Taken(err: Err, sent: nat): nat {
    if err == ErrOk then sent else 0
  }

  /** http_write: offer `length` bytes, then less and less while memory is short. */
  method HttpWrite(pcb: Pcb, ptr: string, length: nat) returns (err: Err, sent: nat)
    requires length <= |ptr| && length <= U16_MAX
    modifies pcb
    ensures sent <= length
    ensures err == ErrOk ==> (length > 0 ==> sent > 0)
    ensures pcb.written == old(pcb.written) + ptr[..Taken(err, sent)]
    ensures old(pcb.refusals) <= pcb.refusals && (pcb.refusals == old(pcb.refusals) ==> err == ErrOk && sent == length)
  {
    sent := length;
    if sent == 0 {
      return ErrOk, sent;
    }
    var again := true;
    err := ErrMem;
    while again
      invariant sent <= length
      invariant again ==> sent > 0 && pcb.written == old(pcb.written)
      invariant !again ==> (err == ErrOk ==> sent > 0)
      invariant !again ==> pcb.written == old(pcb.written) + ptr[..Taken(err, sent)]
      invariant old(pcb.refusals) <= pcb.refusals
      invariant pcb.refusals == old(pcb.refusals) ==> sent == length && (!again ==> err == ErrOk)
      decreases again, sent
    {
      err := pcb.Write(ptr[..sent]);
      if err == ErrMem {
        var space := pcb.SndBuf();
        var full := pcb.QueueFull();
        if space == 0 || full {
          sent := 1;
        } else {
          sent := sent / 2;
        }
      }
      again := err == ErrMem && sent > 1;
    }
  }

  /** Nothing lost, nothing twice: what is out and what is waiting are what was decided. */
  ghost predicate Balanced(written: string, waiting: string, decided: string) {
    written + waiting == decided
  }

  /** `r` is the recogniser's state, or has already taken the step out of the lead-in that
      needs no character. */
  ghost predicate InStep(r: Recogniser, page: string, n: nat)
    requires n <= |page|
  {
    || r == StateAfter(page, n)
    || (r == Name("") && StateAfter(page, n) == LeadIn(|TAG_LEAD_IN|))
  }

  lemma InStepNext(r: Recogniser, page: string, n: nat)
    requires r.Valid() && n < |page| && InStep(r, page, n)
    ensures InStep(Feed(r, page[n]).next, page, n + 1)
    ensures TagEnding(page, n + 1) == Feed(r, page[n]).tag
    ensures TagCount(page, n + 1) == TagCount(page, n) + (if Feed(r, page[n]).tag.Some? then 1 else 0)
  {
  }

  datatype TagState = TagNone | TagLeadIn | TagFound | TagLeadOut | TagSending

  /** struct http_ssi_state; positions are offsets into the file. */
  class SsiState {
    var parsed: nat
    var tagEnd: nat
    var parseLeft: nat
    var tagIndex: nat
    var tagInsertLen: nat
    var tagNameLen: nat
    const tagName: array<char>
    const tagInsert: array<char>
    var tagState: TagState
    /** How many tags the application has been asked about. */
    var calls: nat

    constructor (fileLen: nat)
      ensures parsed == tagEnd == tagIndex == tagInsertLen == tagNameLen == calls == 0
      ensures parseLeft == fileLen && tagState == TagNone
      ensures fresh(tagName) && fresh(tagInsert) && tagName != tagInsert
      ensures tagName.Length == MAX_TAG_NAME_LEN + 1 && tagInsert.Length == MAX_TAG_INSERT_LEN + 1
    {
      parsed, tagEnd, tagIndex, tagInsertLen, tagNameLen, calls := 0, 0, 0, 0, 0, 0;
      parseLeft, tagState := fileLen, TagNone;
      tagName := new char[MAX_TAG_NAME_LEN + 1];
      tagInsert := new char[MAX_TAG_INSERT_LEN + 1];
    }

    ghost predicate Bounded()
      reads this, tagName
    {
      && tagName.Length == MAX_TAG_NAME_LEN + 1 && tagInsert.Length == MAX_TAG_INSERT_LEN + 1
      && tagName != tagInsert
      && tagInsertLen <= MAX_TAG_INSERT_LEN && tagNameLen <= MAX_TAG_NAME_LEN
      && (tagState == TagLeadOut ==> tagName[tagNameLen] == '\0')
      && match tagState
         case TagNone => true
         case TagLeadIn => 1 <= tagIndex <= |TAG_LEAD_IN|
         case TagFound => tagIndex <= MAX_TAG_NAME_LEN && IsTagName(tagName[..tagIndex])
         case TagLeadOut => tagIndex < |TAG_LEAD_OUT| && 0 < tagNameLen && IsTagName(tagName[..tagNameLen])
         case TagSending => tagIndex <= tagInsertLen
    }

    /** The recogniser state the fields stand for. */
    ghost function Recogniser(): (r: Recogniser)
      reads this, tagName
      requires Bounded()
      ensures r.Valid()
    {
      match tagState
      case TagNone => Text
      case TagLeadIn => LeadIn(tagIndex)
      case TagFound => Name(tagName[..tagIndex])
      case TagLeadOut => LeadOut(tagName[..tagNameLen], tagIndex)
      case TagSending => Text
    }

    /** The part of the current insert that has not been written. */
    ghost function InsertLeft(): string
      reads this, tagName, tagInsert
      requires Bounded()
    {
      if tagState == TagSending then tagInsert[..tagInsertLen][tagIndex..] else ""
    }

    method GetTagInsert(cfg: SsiConfig)
      requires Bounded() && cfg.Valid()
      modifies this`tagInsertLen, this`calls, tagInsert
      ensures tagInsertLen <= MAX_TAG_INSERT_LEN && calls == old(calls) + 1
      ensures tagInsert[..tagInsertLen] == InsertFor(cfg, old(calls), CString(old(tagName[..])))
    {
      var name := CString(tagName[..]);
      var call := calls;
      calls := calls + 1;
      assert |name| <= |tagName[..]| == MAX_TAG_NAME_LEN + 1;
      if cfg.registered {
        var loop := 0;
        while loop < |cfg.tags|
          invariant loop <= |cfg.tags| && name !in cfg.tags[..loop]
          invariant tagInsertLen == old(tagInsertLen)
        {
          if name == cfg.tags[loop] {
            FirstIndexIs(cfg.tags, name, loop);
            SetInsert(cfg.handler(call, loop));
            return;
          }
          loop := loop + 1;
        }
        assert cfg.tags[..loop] == cfg.tags;
      }
      SetInsert(UNKNOWN_TAG1_TEXT + name + UNKNOWN_TAG2_TEXT);
    }

    /** The fields have moved on by one character, as the recogniser does. */
    twostate predicate Fed(c: char)
      requires old(Bounded())
      reads this, tagName
    {
      && Bounded() && old(parseLeft) > 0
      && parsed == old(parsed) + 1 && parseLeft == old(parseLeft) - 1
      && Recogniser() == Feed(old(Recogniser()), c).next
    }

    method ParseText(c: char)
      requires Bounded() && tagState == TagNone && parseLeft > 0
      modifies this
      ensures Fed(c) && Feed(old(Recogniser()), c).tag == None && tagState != TagSending && calls == old(calls)
    {
      if c == TAG_LEAD_IN[0] {
        tagState := TagLeadIn;
        tagIndex := 1;
      }
      parseLeft := parseLeft - 1;
      parsed := parsed + 1;
    }

    /** Leaving the lead-in consumes nothing: the recogniser takes that step with the next one. */
    method ParseLeadIn(c: char)
      requires Bounded() && tagState == TagLeadIn && parseLeft > 0
      modifies this
      ensures tagState != TagSending && calls == old(calls)
      ensures if old(tagIndex) == |TAG_LEAD_IN|
              then Bounded() && tagState == TagFound && tagIndex == 0 && parsed == old(parsed)
                   && parseLeft == old(parseLeft)
              else Fed(c) && Feed(old(Recogniser()), c).tag == None
    {
      if tagIndex == |TAG_LEAD_IN| {
        tagIndex := 0;
        tagState := TagFound;
      } else {
        if c == TAG_LEAD_IN[tagIndex] {
          tagIndex := tagIndex + 1;
        } else {
          tagState := TagNone;
        }
        parseLeft := parseLeft - 1;
        parsed := parsed + 1;
      }
    }

    /** One character has been looked at. */
    method Consume()
      requires parseLeft > 0
      modifies this`parsed, this`parseLeft
      ensures parsed == old(parsed) + 1 && parseLeft == old(parseLeft) - 1
    {
      parseLeft := parseLeft - 1;
      parsed := parsed + 1;
    }

    method ParseName(c: char)
      requires Bounded() && tagState == TagFound && parseLeft > 0
      modifies this, tagName
      ensures Fed(c) && Feed(old(Recogniser()), c).tag == None && tagState != TagSending && calls == old(calls)
    {
      ghost var name := tagName[..tagIndex];
      if tagIndex == 0 && IsSpace(c) {
        Consume();
        return;
      }
      if c == TAG_LEAD_OUT[0] || IsSpace(c) {
        if tagIndex == 0 {
          tagState := TagNone;
        } else {
          EndName(c);
          assert tagName[..tagNameLen] == name;
        }
      } else {
        if tagIndex < MAX_TAG_NAME_LEN {
          tagName[tagIndex] := c;
          tagIndex := tagIndex + 1;
          assert tagName[..tagIndex] == name + [c];
        } else {
          tagState := TagNone;
        }
      }
      Consume();
    }

    /** The name is complete and gets its terminator. */
    method EndName(c: char)
      requires tagIndex < tagName.Length
      modifies this`tagState, this`tagNameLen, this`tagIndex, tagName
      ensures tagState == TagLeadOut && tagNameLen == old(tagIndex)
      ensures tagIndex == if c == TAG_LEAD_OUT[0] then 1 else 0
      ensures tagName[tagNameLen] == '\0' && tagName[..tagNameLen] == old(tagName[..tagIndex])
    {
      tagState := TagLeadOut;
      tagNameLen := tagIndex;
      tagName[tagIndex] := '\0';
      if c == TAG_LEAD_OUT[0] {
        tagIndex := 1;
      } else {
        tagIndex := 0;
      }
    }

    method ParseLeadOut(cfg: SsiConfig, c: char)
      requires Bounded() && tagState == TagLeadOut && parseLeft > 0 && cfg.Valid()
      modifies this, tagInsert
      ensures Fed(c)
      ensures match Feed(old(Recogniser()), c).tag
              case None => tagState != TagSending && calls == old(calls)
              case Some(name) =>
                && tagState == TagSending && tagIndex == 0 && tagEnd == parsed && calls == old(calls) + 1
                && tagInsert[..tagInsertLen] == InsertFor(cfg, old(calls), CString(name))
    {
      hide InsertFor, CString;
      if tagIndex == 0 && IsSpace(c) {
        Consume();
        return;
      }
      if c == TAG_LEAD_OUT[tagIndex] {
        Consume();
        if tagIndex == |TAG_LEAD_OUT| - 1 {
          CompleteTag(cfg);
        } else {
          tagIndex := tagIndex + 1;
        }
      } else {
        Consume();
        tagState := TagNone;
      }
    }

    /** The tag is complete: its insert is fetched and is to be sent. */
    method CompleteTag(cfg: SsiConfig)
      requires Bounded() && tagState == TagLeadOut && cfg.Valid()
      modifies this`tagInsertLen, this`calls, this`tagIndex, this`tagState, this`tagEnd, tagInsert
      ensures Bounded() && tagState == TagSending && tagIndex == 0 && tagEnd == parsed && calls == old(calls) + 1
      ensures tagInsert[..tagInsertLen] == InsertFor(cfg, old(calls), CString(tagName[..tagNameLen]))
    {
      hide InsertFor, CString;
      CStringOfPrefix(tagName[..], tagNameLen);
      assert tagName[..][..tagNameLen] == tagName[..tagNameLen];
      GetTagInsert(cfg);
      tagIndex := 0;
      tagState := TagSending;
      tagEnd := parsed;
    }

    /** The fields are in step with the page read so far, and no insert is being sent. */
    ghost predicate Parsing(page: string)
      reads this, tagName
    {
      && Bounded() && tagState != TagSending
      && parsed + parseLeft == |page| && parseLeft > 0
      && InStep(Recogniser(), page, parsed) && calls == TagCount(page, parsed)
    }

    /** Everything has moved on to position `at`; a tag that ended there has its insert ready. */
    ghost predicate Parsed(cfg: SsiConfig, page: string, at: nat)
      reads this, tagName, tagInsert
    {
      && Bounded() && parsed + parseLeft == |page| && parsed == at
      && InStep(Recogniser(), page, parsed) && calls == TagCount(page, parsed)
      && (tagState == TagSending ==> tagIndex == 0 && tagEnd == parsed)
      && InsertAt(cfg, page, parsed) == (if tagState == TagSending then tagInsert[..tagInsertLen] else "")
    }

    /** The parsing cases of the switch in http_send_data_ssi. */
    method ParseStep(cfg: SsiConfig, page: string)
      requires Parsing(page) && cfg.Valid()
      modifies this, tagName, tagInsert
      ensures if old(tagState == TagLeadIn && tagIndex == |TAG_LEAD_IN|)
              then Parsing(page) && tagState == TagFound && parsed == old(parsed)
              else Parsed(cfg, page, old(parsed) + 1)
    {
      hide Feed;
      ghost var r := Recogniser();
      var c := page[parsed];
      InStepNext(r, page, parsed);
      match tagState
      case TagNone => ParseText(c);
      case TagLeadIn =>
        assert tagIndex == |TAG_LEAD_IN| ==> tagName[..0] == "";
        ParseLeadIn(c);
      case TagFound => ParseName(c);
      case TagLeadOut => ParseLeadOut(cfg, c);
    }

    method SetInsert(text: string)
      requires |text| <= MAX_TAG_INSERT_LEN < tagInsert.Length
      modifies this`tagInsertLen, tagInsert
      ensures tagInsertLen == |text| && tagInsert[..tagInsertLen] == text
    {
      tagInsertLen := |text|;
      forall k | 0 <= k < |text| {
        tagInsert[k] := text[k];
      }
    }
  }

  /** Reading a stored name back as a C string: the terminator ends it, or a NUL inside it. */
  lemma {:induction false} CStringOfPrefix(s: string, n: nat)
    requires n < |s| && s[n] == '\0'
    ensures CString(s) == CString(s[..n])
  {
  }

  datatype Connection = Open | AtEof | Dropped

  datatype SendResult = NoData | Continue | Break

  /** At first all of the headers are owed. */
  lemma HeadersOwed(page: Page)
    requires page.Valid()
    ensures HeaderText(page) ==
            if page.headers.Some? then page.headers.value[0][0..] + Concat(page.headers.value[1..]) else ""
  {
    if page.headers.Some? {
      assert page.headers.value[0][0..] == page.headers.value[0];
    }
  }

  lemma StartOfPage(cfg: SsiConfig, page: string)
    ensures StateAfter(page, 0) == Text && TagCount(page, 0) == 0
    ensures InsertAt(cfg, page, 0) == Expand(cfg, page, 0) == ""
  {
  }

  lemma ParsedFurther(headers: string, cfg: SsiConfig, page: string, at: nat, p: nat, written: string)
    requires at <= p < |page|
    requires Balanced(written, page[at..p] + "", headers + Expand(cfg, page, p))
    ensures Balanced(written, page[at..p + 1] + InsertAt(cfg, page, p + 1), headers + Expand(cfg, page, p + 1))
  {
    hide InsertAt;
    var c, insert := [page[p]], InsertAt(cfg, page, p + 1);
    assert page[at..p + 1] == page[at..p] + c;
    assert written + (page[at..p] + c + insert) == (written + (page[at..p] + "")) + (c + insert);
    assert headers + Expand(cfg, page, p + 1) == (headers + Expand(cfg, page, p)) + (c + insert);
  }

  /** Writing the front of what is left keeps the whole. */
  lemma MoveFront(written: string, rest: string, n: nat)
    requires n <= |rest|
    ensures (written + rest[..n]) + rest[n..] == written + rest
  {
  }

  lemma SentFromFile(written: string, page: string, at: nat, parsed: nat, insert: string, n: nat, decided: string)
    requires at + n <= parsed <= |page| && Balanced(written, page[at..parsed] + insert, decided)
    ensures Balanced(written + page[at..][..n], page[at + n..parsed] + insert, decided)
  {
  }

  lemma SentPlain(written: string, headers: string, page: string, at: nat, n: nat)
    requires at + n <= |page| && Balanced(written + "", "", headers + page[..at])
    ensures Balanced(written + page[at..][..n] + "", "", headers + page[..at + n])
  {
    assert page[..at + n] == page[..at] + page[at..][..n];
    assert written == written + "" + "" == headers + page[..at];
    assert written + page[at..][..n] == headers + (page[..at] + page[at..][..n]);
  }

  lemma SentFromInsert(written: string, data: string, insert: string, at: nat, n: nat, decided: string)
    requires at + n <= |insert| && data == "" && Balanced(written, data + insert[at..], decided)
    ensures Balanced(written + insert[at..][..n], data + insert[at + n..], decided)
  {
  }

  class HttpState {
    const cfg: SsiConfig
    const page: Page
    const pcb: Pcb
    const ssi: SsiState?
    var file: nat
    var left: nat
    var retries: nat
    var hdrIndex: nat
    var hdrPos: nat
    /** Open until the state is freed: at the end of the response, or by giving up. */
    var connection: Connection

    ghost predicate Framed()
    {
      && page.Valid() && cfg.Valid()
      && (ssi != null <==> page.tagCheck)
      && (ssi != null ==> ssi as object != this && ssi as object != pcb)
    }

    ghost function Parts(): set<object>
    {
      {pcb} + (if ssi == null then {} else {ssi, ssi.tagName, ssi.tagInsert})
    }

    /** Header text that has not been written. */
    ghost function HeaderLeft(): string
      reads this`hdrIndex, this`hdrPos
      requires page.Valid() && HeadersValid()
    {
      if hdrIndex == NUM_FILE_HDR_STRINGS then ""
      else page.headers.value[hdrIndex][hdrPos..] + Concat(page.headers.value[hdrIndex + 1..])
    }

    ghost predicate HeadersValid()
      reads this`hdrIndex, this`hdrPos
      requires page.Valid()
    {
      && hdrIndex <= NUM_FILE_HDR_STRINGS
      && (hdrIndex < NUM_FILE_HDR_STRINGS ==> page.headers.Some? && hdrPos <= |page.headers.value[hdrIndex]|)
    }

    ghost predicate FileValid()
      reads this`file, this`left
    {
      file + left == |page.Data()|
    }

    ghost predicate SsiValid()
      reads this`file, ssi, if ssi == null then {} else {ssi.tagName, ssi.tagInsert}
      requires ssi != null
    {
      && ssi.Bounded()
      && file <= ssi.parsed && ssi.parsed + ssi.parseLeft == |page.Data()|
      && InStep(ssi.Recogniser(), page.Data(), ssi.parsed)
      && ssi.calls == TagCount(page.Data(), ssi.parsed)
      && (ssi.tagState == TagSending ==>
            && ssi.tagEnd == ssi.parsed
            && (file < ssi.parsed || ssi.parseLeft == 0 ==> ssi.tagIndex == 0)
            && InsertReady())
      && (ssi.tagState != TagSending && ssi.parseLeft == 0 ==> NothingToInsert())
    }

    /** The insert buffer holds what belongs at the parse position. */
    ghost predicate InsertReady()
      reads ssi`parsed, ssi`tagInsertLen, if ssi == null then {} else {ssi.tagInsert}
      requires ssi != null && ssi.parsed <= |page.Data()| && ssi.tagInsertLen <= ssi.tagInsert.Length
    {
      ssi.tagInsert[..ssi.tagInsertLen] == InsertAt(cfg, page.Data(), ssi.parsed)
    }

    ghost predicate NothingToInsert()
      reads ssi`parsed
      requires ssi != null && ssi.parsed <= |page.Data()|
    {
      InsertAt(cfg, page.Data(), ssi.parsed) == ""
    }

    /** What has been decided to be sent after the headers but has not been written, in order. */
    ghost function BodyLeft(): string
      reads this`file, ssi, if ssi == null then {} else {ssi.tagName, ssi.tagInsert}
      requires ssi != null ==> SsiValid()
    {
      if ssi == null then "" else page.Data()[file..ssi.parsed] + ssi.InsertLeft()
    }

    /** What is to be sent for the part of the file looked at so far. */
    ghost function Decided(): string
      reads this`file, this`left, ssi
      requires FileValid()
      requires ssi != null ==> ssi.parsed <= |page.Data()|
    {
      HeaderText(page) +
      (if ssi == null then page.Data()[..file] else Expand(cfg, page.Data(), ssi.parsed))
    }

    ghost predicate Valid()
      reads this`file, this`left, this`hdrIndex, this`hdrPos, this`connection, pcb`written
      reads ssi, if ssi == null then {} else {ssi.tagName, ssi.tagInsert}
    {
      && Framed() && HeadersValid() && FileValid()
      && (ssi != null ==> SsiValid())
      && (hdrIndex < NUM_FILE_HDR_STRINGS ==> file == 0 && (ssi != null ==> ssi.parsed == 0 && ssi.tagState == TagNone))
      && Balanced(pcb.written + HeaderLeft(), BodyLeft(), Decided())
      && (connection == AtEof ==> hdrIndex == NUM_FILE_HDR_STRINGS && left == 0)
    }

    /** http_init_file: nothing has been sent. */
    constructor (cfg: SsiConfig, page: Page)
      requires cfg.Valid() && page.Valid()
      ensures Valid() && this.cfg == cfg && this.page == page && connection == Open
      ensures fresh(Parts())
    {
      hide Valid;
      this.cfg, this.page := cfg, page;
      pcb := new Pcb();
      if page.tagCheck {
        ssi := new SsiState(|page.Data()|);
      } else {
        ssi := null;
      }
      file, left, retries, connection := 0, |page.Data()|, 0, Open;
      hdrIndex, hdrPos := if page.headers.Some? then 0 else NUM_FILE_HDR_STRINGS, 0;
      new;
      StartsValid();
    }

    lemma StartsValid()
      requires Framed() && file == 0 && left == |page.Data()| && hdrPos == 0 && connection == Open && pcb.written == ""
      requires hdrIndex == if page.headers.Some? then 0 else NUM_FILE_HDR_STRINGS
      requires ssi != null ==>
                 && ssi.Bounded() && ssi.tagState == TagNone && ssi.parsed == 0 && ssi.parseLeft == |page.Data()|
                 && ssi.calls == 0
      ensures Valid()
    {
      hide InsertAt, Expand, StateAfter, TagCount, HeaderText, SsiState.Bounded;
      StartOfPage(cfg, page.Data());
      HeadersOwed(page);
      if ssi != null {
        assert ssi.Recogniser() == Text && ssi.InsertLeft() == "" by { FreshSsi(); }
      }
    }

    lemma FreshSsi()
      requires ssi != null && ssi.Bounded() && ssi.tagState == TagNone
      ensures ssi.Recogniser() == Text && ssi.InsertLeft() == ""
    {
    }

    /** How far the response is: it moves on with every byte written and every header finished. */
    ghost function Position(): nat
      reads this`hdrIndex, pcb`written
    {
      hdrIndex + |pcb.written|
    }

    /** `n` more bytes of the headers have gone out. */
    method AdvanceHeader(n: nat)
      requires page.Valid() && HeadersValid() && hdrIndex < NUM_FILE_HDR_STRINGS
      requires hdrPos + n <= |page.headers.value[hdrIndex]|
      modifies this`hdrIndex, this`hdrPos
      ensures HeadersValid() && |HeaderLeft()| + n == |old(HeaderLeft())| && HeaderLeft() == old(HeaderLeft())[n..]
      ensures if old(hdrPos) + n == |page.headers.value[old(hdrIndex)]|
              then hdrIndex == old(hdrIndex) + 1 && hdrPos == 0 else hdrIndex == old(hdrIndex)
    {
      hide Concat;
      HeaderShrinks(page.headers.value, hdrIndex, hdrPos, n);
      var hdrs := page.headers.value;
      var hdr := hdrs[hdrIndex];
      hdrPos := hdrPos + n;
      if hdrPos == |hdr| {
        hdrIndex := hdrIndex + 1;
        hdrPos := 0;
      }
    }

    static lemma HeaderShrinks(hdrs: seq<string>, index: nat, pos: nat, n: nat)
      requires |hdrs| == NUM_FILE_HDR_STRINGS && index < |hdrs| && pos + n <= |hdrs[index]|
      ensures var left := hdrs[index][pos..] + Concat(hdrs[index + 1..]);
              && n <= |left| && left[n..] == hdrs[index][pos + n..] + Concat(hdrs[index + 1..])
              && (pos + n == |hdrs[index]| ==>
                    left[n..] == if index + 1 == |hdrs| then "" else hdrs[index + 1][0..] + Concat(hdrs[index + 2..]))
    {
      assert hdrs[index][pos..][n..] == hdrs[index][pos + n..];
      if index + 1 < |hdrs| {
        assert hdrs[index + 1][0..] == hdrs[index + 1];
        assert hdrs[index + 1..][1..] == hdrs[index + 2..];
      }
    }

    /** Offer what is left of the current header, at most `len` bytes; a refusal counts as none. */
    method WriteHeaderPart(len: nat) returns (offered: nat, sent: nat)
      requires page.Valid() && HeadersValid() && hdrIndex < NUM_FILE_HDR_STRINGS && len <= U16_MAX
      modifies this`hdrIndex, this`hdrPos, pcb
      ensures sent <= offered <= len
      ensures HeadersValid() && pcb.written + HeaderLeft() == old(pcb.written + HeaderLeft())
      ensures hdrIndex == old(hdrIndex) || (hdrIndex == old(hdrIndex) + 1 && hdrPos == 0)
      ensures old(pcb.refusals) <= pcb.refusals && old(Position()) <= Position()
      ensures pcb.refusals == old(pcb.refusals) && len > 0 ==> old(Position()) < Position()
    {
      var hdr := page.headers.value[hdrIndex];
      offered := if len < |hdr| - hdrPos then len else |hdr| - hdrPos;
      ghost var before, rest := pcb.written, HeaderLeft();
      var err;
      err, sent := HttpWrite(pcb, hdr[hdrPos..], offered);
      if err != ErrOk {
        sent := 0;
      }
      assert hdr[hdrPos..][..sent] == rest[..sent];
      AdvanceHeader(sent);
      MoveFront(before, rest, sent);
    }

    /** The loop of http_send_headers; `shortened` when a write took less than was offered. */
    method WriteHeaders() returns (shortened: bool)
      requires page.Valid() && HeadersValid() && hdrIndex < NUM_FILE_HDR_STRINGS
      modifies this`hdrIndex, this`hdrPos, pcb
      ensures HeadersValid() && pcb.written + HeaderLeft() == old(pcb.written + HeaderLeft())
      ensures old(pcb.refusals) <= pcb.refusals
      ensures old(pcb.refusals) < pcb.refusals || old(Position()) < Position()
    {
      hide HeaderLeft;
      shortened := false;
      var len := pcb.SndBuf();
      var sendlen := len;
      while len > 0 && hdrIndex < NUM_FILE_HDR_STRINGS && sendlen > 0
        invariant HeadersValid() && len <= U16_MAX
        invariant pcb.written + HeaderLeft() == old(pcb.written + HeaderLeft())
        invariant old(pcb.refusals) <= pcb.refusals && old(Position()) <= Position()
        invariant old(pcb.refusals) < pcb.refusals || old(Position()) < Position()
                  || (len > 0 && sendlen > 0 && hdrIndex < NUM_FILE_HDR_STRINGS)
        decreases NUM_FILE_HDR_STRINGS - hdrIndex, len, sendlen
      {
        var oldSendlen;
        oldSendlen, sendlen := WriteHeaderPart(len);
        if 0 < sendlen < oldSendlen {
          shortened := true;
        }
        len := len - sendlen;
      }
    }

    method SendHeaders() returns (dataToSend: SendResult)
      requires Valid() && connection == Open && hdrIndex < NUM_FILE_HDR_STRINGS
      modifies this`hdrIndex, this`hdrPos, pcb
      ensures Valid()
      ensures dataToSend == Continue ==> hdrIndex == NUM_FILE_HDR_STRINGS && page.file.Some?
      ensures old(pcb.refusals) <= pcb.refusals
      ensures old(pcb.refusals) < pcb.refusals || old(Position()) < Position()
    {
      hide SsiState.Bounded, HeaderLeft, HeaderText;
      var shortened := WriteHeaders();
      if hdrIndex < NUM_FILE_HDR_STRINGS || page.file.None? {
        dataToSend := Break;
      } else {
        dataToSend := if shortened then Continue else NoData;
      }
    }

    // ----- Pages with tags -----

    /** The headers are out, and what is written and what is waiting make up what was decided. */
    ghost predicate Streaming()
      reads this, pcb`written, ssi, if ssi == null then {} else {ssi.tagName, ssi.tagInsert}
    {
      && Framed() && ssi != null && hdrIndex == NUM_FILE_HDR_STRINGS && connection == Open
      && FileValid() && SsiValid()
      && Balanced(pcb.written, BodyLeft(), Decided())
    }

    lemma StreamingIsValid()
      requires Framed() && ssi != null && hdrIndex == NUM_FILE_HDR_STRINGS && connection == Open
      ensures Streaming() <==> Valid()
    {
      assert pcb.written + "" == pcb.written;
    }

    /** `n` file bytes have gone out. */
    twostate lemma FileWritten(n: nat)
      requires old(Streaming()) && unchanged(ssi) && unchanged(ssi.tagName) && unchanged(ssi.tagInsert)
      requires hdrIndex == old(hdrIndex) && connection == old(connection)
      requires old(file) + n == file <= ssi.parsed && left == old(left) - n
      requires pcb.written == old(pcb.written) + page.Data()[old(file)..][..n]
      ensures Streaming()
    {
      hide Balanced, Framed, InsertReady, NothingToInsert, SsiState.Bounded, SsiState.InsertLeft, HeaderText, Expand,
           InStep, TagCount;
      assert SsiValid();
      SentFromFile(old(pcb.written), page.Data(), old(file), ssi.parsed, ssi.InsertLeft(), n, Decided());
    }

    /** `n` bytes of the insert have gone out. */
    twostate lemma InsertWritten(n: nat)
      requires old(Streaming()) && unchanged(this) && unchanged(ssi.tagName) && unchanged(ssi.tagInsert)
      requires unchanged(ssi`parsed, ssi`tagEnd, ssi`parseLeft, ssi`tagInsertLen, ssi`tagNameLen, ssi`tagState,
               ssi`calls)
      requires ssi.tagState == TagSending && file == ssi.parsed && ssi.parseLeft > 0
      requires old(ssi.tagIndex) + n == ssi.tagIndex <= ssi.tagInsertLen
      requires pcb.written == old(pcb.written) + ssi.tagInsert[..ssi.tagInsertLen][old(ssi.tagIndex)..][..n]
      ensures Streaming()
    {
      hide Balanced, Framed, InsertReady, NothingToInsert, HeaderText, Expand, InStep, TagCount;
      assert SsiValid();
      assert old(ssi.tagInsert[..ssi.tagInsertLen]) == ssi.tagInsert[..ssi.tagInsertLen];
      SentFromInsert(old(pcb.written), page.Data()[file..ssi.parsed], ssi.tagInsert[..ssi.tagInsertLen],
                     old(ssi.tagIndex), n, Decided());
    }

    /** Write file bytes that have been parsed. */
    method WriteFile(length: nat) returns (err: Err, sent: nat)
      requires Streaming() && length <= ssi.parsed - file && length <= U16_MAX
      modifies this`file, this`left, pcb
      ensures Streaming() && file <= ssi.parsed && sent <= length
      ensures old(file) <= file && (err == ErrOk && length > 0 ==> old(file) < file && sent > 0)
      ensures |pcb.written| == |old(pcb.written)| + (file - old(file))
      ensures old(pcb.refusals) <= pcb.refusals && (err != ErrOk ==> old(pcb.refusals) < pcb.refusals)
    {
      hide Balanced, Framed, InsertReady, SsiState.Bounded, BodyLeft, Decided, InStep;
      err, sent := HttpWrite(pcb, page.Data()[file..], length);
      if err == ErrOk {
        file := file + sent;
        left := left - sent;
      }
      FileWritten(Taken(err, sent));
    }

    /** Write bytes of the insert, all file bytes before it being out. */
    method WriteInsert(length: nat) returns (err: Err, sent: nat)
      requires Streaming() && ssi.tagState == TagSending && file == ssi.parsed && ssi.parseLeft > 0
      requires length <= ssi.tagInsertLen - ssi.tagIndex
      modifies ssi`tagIndex, pcb
      ensures Streaming() && sent <= length && ssi.tagIndex <= ssi.tagInsertLen
      ensures old(ssi.tagIndex) <= ssi.tagIndex
      ensures (err == ErrOk && length > 0 ==> old(ssi.tagIndex) < ssi.tagIndex && sent > 0)
      ensures |pcb.written| == |old(pcb.written)| + (ssi.tagIndex - old(ssi.tagIndex))
      ensures old(pcb.refusals) <= pcb.refusals && (err != ErrOk ==> old(pcb.refusals) < pcb.refusals)
    {
      hide Balanced, Framed, InsertReady, BodyLeft, Decided, InStep;
      err, sent := HttpWrite(pcb, ssi.tagInsert[..ssi.tagInsertLen][ssi.tagIndex..], length);
      if err == ErrOk {
        ssi.tagIndex := ssi.tagIndex + sent;
      }
      InsertWritten(Taken(err, sent));
    }

    method FinishInsert()
      requires Streaming() && ssi.tagState == TagSending && file == ssi.parsed && ssi.parseLeft > 0
      requires ssi.tagIndex == ssi.tagInsertLen
      modifies ssi`tagIndex, ssi`tagState
      ensures Streaming() && ssi.tagState == TagNone && ssi.parsed == old(ssi.parsed)
    {
      hide Framed, InsertReady, NothingToInsert, HeaderText, Expand, InsertAt, TagCount;
      ssi.tagIndex := 0;
      ssi.tagState := TagNone;
    }

    /** One round of the parse loop that is not sending. */
    method ParseChar()
      requires Streaming() && ssi.parseLeft > 0 && ssi.tagState != TagSending
      modifies ssi, ssi.tagName, ssi.tagInsert
      ensures Streaming()
      ensures || ssi.parseLeft < old(ssi.parseLeft)
              || (ssi.parseLeft == old(ssi.parseLeft) && old(AtLeadInEnd()) && !AtLeadInEnd()
                 && ssi.tagState != TagSending)
    {
      hide HeaderText, InsertAt, InStep, TagCount, Balanced, Expand;
      ghost var p, before := ssi.parsed, BodyLeft();
      assert before == page.Data()[file..p] + "";
      ssi.ParseStep(cfg, page.Data());
      if ssi.parsed == p + 1 {
        ParsedFurther(HeaderText(page), cfg, page.Data(), file, p, pcb.written);
        assert ssi.InsertLeft() == InsertAt(cfg, page.Data(), p + 1);
      }
    }

    ghost predicate AtLeadInEnd()
      reads ssi
      requires ssi != null
    {
      ssi.tagState == TagLeadIn && ssi.tagIndex == |TAG_LEAD_IN|
    }

    /** Since then no refusal has been forgotten, and what has left the file has been written. */
    ghost predicate Moves(refusals: nat, written: string, at: nat)
      reads this`file, pcb
    {
      refusals <= pcb.refusals && at <= file && |written| + (file - at) <= |pcb.written|
    }

    /** What the sending state has still to push out. */
    ghost function ToSend(): nat
      reads this`file, ssi
      requires ssi != null
    {
      if ssi.tagState == TagSending && file <= ssi.tagEnd && ssi.tagIndex <= ssi.tagInsertLen
      then 1 + (ssi.tagEnd - file) + (ssi.tagInsertLen - ssi.tagIndex) else 0
    }

    lemma SendingBounds()
      requires Streaming() && ssi.tagState == TagSending
      ensures ssi.tagIndex <= ssi.tagInsertLen
    {
    }

    /** The TAG_SENDING case: file data before the insert point, then the insert. */
    method SendTag(window: nat) returns (err: Err, len: nat)
      requires Streaming() && ssi.parseLeft > 0 && ssi.tagState == TagSending && 0 < window <= U16_MAX
      modifies this`file, this`left, ssi, pcb
      ensures Streaming() && ssi.parseLeft == old(ssi.parseLeft) && len <= window
      ensures ToSend() <= old(ToSend()) && (err == ErrOk ==> ToSend() < old(ToSend()) && len > 0)
      ensures Moves(old(pcb.refusals), old(pcb.written), old(file))
      ensures (err != ErrOk ==> old(pcb.refusals) < pcb.refusals)
      ensures ssi.tagState == TagSending && old(pcb.refusals) == pcb.refusals ==> |old(pcb.written)| < |pcb.written|
    {
      hide Balanced, BodyLeft, Decided, InStep, InsertReady, NothingToInsert, Framed, SsiState.Bounded;
      assert ssi.tagIndex <= ssi.tagInsertLen by { SendingBounds(); }
      len := window;
      if ssi.tagEnd > file {
        if len > ssi.tagEnd - file {
          len := ssi.tagEnd - file;
        }
        err, len := WriteFile(len);
      } else if ssi.tagIndex < ssi.tagInsertLen {
        if len > ssi.tagInsertLen - ssi.tagIndex {
          len := ssi.tagInsertLen - ssi.tagIndex;
        }
        err, len := WriteInsert(len);
      } else {
        FinishInsert();
        err := ErrOk;
      }
    }

    /** One round of the loop: send in the sending state, parse a character in the others. */
    method ParseOrSend(window: nat) returns (err: Err, len: nat)
      requires Streaming() && ssi.parseLeft > 0 && 0 < window <= U16_MAX
      modifies this`file, this`left, pcb, ssi, ssi.tagName, ssi.tagInsert
      ensures Streaming() && len <= window && Moves(old(pcb.refusals), old(pcb.written), old(file))
      ensures old(pcb.refusals) < pcb.refusals || (err == ErrOk && len > 0)
      ensures || old(pcb.refusals) < pcb.refusals || |old(pcb.written)| < |pcb.written|
              || (ssi.tagState == TagSending ==> file == ssi.parsed)
      ensures err == ErrOk ==>
                || ssi.parseLeft < old(ssi.parseLeft)
                || (ssi.parseLeft == old(ssi.parseLeft) && ToSend() < old(ToSend()))
                || (ssi.parseLeft == old(ssi.parseLeft) && ToSend() == old(ToSend()) && old(AtLeadInEnd())
                   && !AtLeadInEnd())
    {
      hide SsiState.InsertLeft, HeaderText, InStep, BodyLeft, Decided, Framed, InsertReady, NothingToInsert, Balanced;
      len, err := window, ErrOk;
      if ssi.tagState == TagSending {
        err, len := SendTag(len);
      } else {
        ParseChar();
        if ssi.tagState == TagSending && ssi.tagEnd > file {
          // a tag has just ended: send what comes before its insert
          if len > ssi.tagEnd - file {
            len := ssi.tagEnd - file;
          }
          err, len := WriteFile(len);
        }
      }
    }

    /** Send parsed file data, as much as the window and twice the segment size allow. */
    method FlushFile() returns (err: Err, len: nat)
      requires Streaming()
      modifies this`file, this`left, pcb
      ensures Streaming() && len <= U16_MAX && Moves(old(pcb.refusals), old(pcb.written), old(file))
      ensures err != ErrOk ==> old(pcb.refusals) < pcb.refusals
      ensures ssi.parsed > old(file) && old(pcb.refusals) == pcb.refusals ==> old(file) < file && len > 0
    {
      hide SsiState.InsertLeft, HeaderText, Expand, InsertAt, InStep, TagCount, BodyLeft, Decided, Framed, InsertReady,
        NothingToInsert, Balanced;
      len := pcb.SndBuf();
      if len > ssi.parsed - file {
        len := ssi.parsed - file;
      }
      var mss := pcb.Mss();
      if len > 2 * mss {
        len := 2 * mss;
      }
      err, len := WriteFile(len);
    }

    /** http_send_data_ssi: unless the stack refuses something, a page that is not finished moves on. */
    method SendDataSsi()
      requires Streaming()
      modifies this`file, this`left, pcb, ssi, ssi.tagName, ssi.tagInsert
      ensures Streaming() && old(pcb.refusals) <= pcb.refusals && |old(pcb.written)| <= |pcb.written|
      ensures old(left) > 0 ==> old(pcb.refusals) < pcb.refusals || |old(pcb.written)| < |pcb.written|
    {
      hide SsiState.InsertLeft, HeaderText, Expand, InsertAt, InStep, TagCount, BodyLeft, Decided, Framed, InsertReady,
        NothingToInsert, Balanced;
      var err := ErrOk;
      var len: nat := pcb.SndBuf();
      if ssi.parsed > file {
        err, len := FlushFile();
        var space := pcb.SndBuf();
        if space == 0 {
          return;
        }
      }
      while ssi.parseLeft > 0 && err == ErrOk
        invariant Streaming() && len <= U16_MAX && Moves(old(pcb.refusals), old(pcb.written), old(file))
        invariant old(pcb.refusals) < pcb.refusals || (err == ErrOk && len > 0)
        invariant || old(pcb.refusals) < pcb.refusals || |old(pcb.written)| < |pcb.written|
                  || (ssi.tagState == TagSending ==> file == ssi.parsed)
        decreases err == ErrOk, ssi.parseLeft, ToSend(), AtLeadInEnd()
      {
        if len == 0 {
          return;
        }
        err, len := ParseOrSend(len);
      }
      if ssi.tagState != TagSending && ssi.parsed > file {
        err, len := FlushFile();
      }
    }

    // ----- Everything else -----

    method SendDataNonSsi()
      requires Valid() && ssi == null && hdrIndex == NUM_FILE_HDR_STRINGS && connection == Open
      modifies this`file, this`left, pcb
      ensures Valid() && old(pcb.refusals) <= pcb.refusals && |old(pcb.written)| <= |pcb.written|
      ensures old(left) > 0 ==> old(pcb.refusals) < pcb.refusals || |old(pcb.written)| < |pcb.written|
    {
      hide HeaderText, SsiValid, Expand, InsertAt;
      var len := pcb.SndBuf();
      if len >= left {
        len := left;
      }
      var mss := pcb.Mss();
      if len > 2 * mss {
        len := 2 * mss;
      }
      ghost var before, at := pcb.written, file;
      var err;
      err, len := HttpWrite(pcb, page.Data()[file..], len);
      if err == ErrOk {
        file := file + len;
        left := left - len;
      }
      SentPlain(before, HeaderText(page), page.Data(), at, Taken(err, len));
    }

    /** http_eof: the response is over and the state is freed. */
    method Eof()
      requires Valid() && connection == Open && hdrIndex == NUM_FILE_HDR_STRINGS && left == 0
      modifies this`connection
      ensures Valid() && connection == AtEof
    {
      connection := AtEof;
    }

    /** http_send. A static file is read in one piece, so it has ended when nothing is left. */
    method Send()
      requires Valid() && connection == Open
      modifies this`file, this`left, this`hdrIndex, this`hdrPos, this`connection, Parts()
      ensures Valid() && connection != Dropped
      ensures old(pcb.refusals) <= pcb.refusals
      ensures connection == AtEof || old(pcb.refusals) < pcb.refusals || old(Position()) < Position()
    {
      hide Balanced, BodyLeft, Decided, HeaderLeft, SsiState.Bounded, InStep, InsertReady, NothingToInsert;
      if hdrIndex < NUM_FILE_HDR_STRINGS {
        var dataToSend := SendHeaders();
        if dataToSend != Continue {
          return;
        }
      }
      if left == 0 {
        Eof();
        return;
      }
      if ssi != null {
        StreamingIsValid();
        SendDataSsi();
        StreamingIsValid();
      } else {
        SendDataNonSsi();
      }
      if left == 0 {
        Eof();
      }
    }

    /** http_sent: the client acknowledged data. */
    method Sent()
      requires Valid() && connection == Open
      modifies this, Parts()
      ensures Valid() && connection != Dropped && retries == 0
      ensures old(pcb.refusals) <= pcb.refusals
      ensures connection == AtEof || old(pcb.refusals) < pcb.refusals || old(Position()) < Position()
    {
      hide Valid;
      retries := 0;
      Send();
    }

    /** The connection is closed in the middle of the response. */
    method Abandon()
      requires Valid() && connection == Open
      modifies this`connection
      ensures Valid() && connection == Dropped
    {
      hide Balanced, BodyLeft, Decided, HeaderLeft, InStep, InsertReady, NothingToInsert;
      connection := Dropped;
    }

    /** http_poll: give up after too many idle rounds, otherwise try again. */
    method Poll()
      requires Valid() && connection == Open
      modifies this, Parts()
      ensures Valid() && retries == old(retries) + 1 && old(pcb.refusals) <= pcb.refusals
      ensures connection == Dropped <==> retries == HTTPD_MAX_RETRIES
      ensures connection == Dropped || page.file == None ==>
              pcb.written == old(pcb.written) && Position() == old(Position())
      ensures connection != Dropped && page.file.Some? ==>
                connection == AtEof || old(pcb.refusals) < pcb.refusals || old(Position()) < Position()
    {
      hide Valid;
      retries := retries + 1;
      if retries == HTTPD_MAX_RETRIES {
        Abandon();
        return;
      }
      if page.file.Some? {
        Send();
      }
    }

    /** Any run: the first send, then callbacks in any order until the state is freed. */
    method Serve(callbacks: nat)
      requires Valid() && connection == Open
      modifies this, Parts()
      ensures Valid()
      ensures pcb.written <= Response(cfg, page)
      ensures connection == AtEof ==> pcb.written + LostInsert(cfg, page) == Response(cfg, page)
      ensures connection == AtEof ==> (pcb.written == Response(cfg, page) <==> LostInsert(cfg, page) == "")
    {
      Send();
      var k := 0;
      while k < callbacks && connection == Open
        invariant Valid()
      {
        var acknowledged := *;
        if acknowledged {
          Sent();
        } else {
          Poll();
        }
        k := k + 1;
      }
      WhatTheClientSees();
    }

    /** As long as nothing is refused every acknowledgement moves the response on, and it comes to
        its end. */
    method Deliver()
      requires Valid() && connection == Open
      modifies this, Parts()
      ensures Valid() && old(pcb.refusals) <= pcb.refusals
      ensures old(pcb.refusals) == pcb.refusals ==>
                && connection == AtEof && pcb.written + LostInsert(cfg, page) == Response(cfg, page)
                && (pcb.written == Response(cfg, page) <==> LostInsert(cfg, page) == "")
    {
      hide Balanced, BodyLeft, Decided, HeaderLeft, Response, LostInsert, SsiState.Bounded, SsiValid, FileValid;
      var before := pcb.refusals;
      Send();
      WhatTheClientSees();
      while connection == Open && pcb.refusals == before
        invariant Valid() && connection != Dropped && old(pcb.refusals) == before <= pcb.refusals
        invariant pcb.written <= Response(cfg, page)
        invariant connection == AtEof ==> pcb.written + LostInsert(cfg, page) == Response(cfg, page)
        decreases connection == Open && pcb.refusals == before,
                  NUM_FILE_HDR_STRINGS + |Response(cfg, page)| - Position()
      {
        Sent();
        WhatTheClientSees();
      }
    }

    /** At the end of a run the response, the three header strings and the page with its inserts, is
        complete if and only if no insert was due after the very last byte; so it is for every page that
        does not end with a lead-out, and for every plain file. */
    lemma CompleteUnlessTagEndsPage()
      requires Valid() && connection == AtEof
      ensures var headers := if page.headers == None then "" else ThreeStrings(page.headers.value);
              && Response(cfg, page) ==
                 headers + (if page.tagCheck then Expand(cfg, page.Data(), |page.Data()|) else page.Data())
              && (pcb.written == Response(cfg, page) <==> LostInsert(cfg, page) == "")
              && (!page.tagCheck ==> pcb.written == headers + page.Data())
      ensures !EndsWith(page.Data(), |page.Data()|, TAG_LEAD_OUT) ==> pcb.written == Response(cfg, page)
    {
      hide Valid, EndsWith;
      PageIsValid();
      WhatTheClientSees();
      if page.headers.Some? {
        HeadersInOrder(page.headers.value);
      }
      if TagEnding(page.Data(), |page.Data()|).Some? {
        LeadOutEndsTag(page.Data(), |page.Data()|);
      }
    }

    lemma PageIsValid()
      requires Valid()
      ensures page.Valid()
    {
    }

    /** What validity means for the client, at any moment and at the end. */
    lemma WhatTheClientSees()
      requires Valid()
      ensures pcb.written <= Response(cfg, page)
      ensures connection == AtEof ==> pcb.written + LostInsert(cfg, page) == Response(cfg, page)
      ensures connection == AtEof ==> (pcb.written == Response(cfg, page) <==> LostInsert(cfg, page) == "")
    {
      hide SsiState.Bounded, HeaderText, Expand, InsertAt, InStep, TagCount;
      assert pcb.written <= Decided();
      if ssi != null {
        ExpandIsMonotone(cfg, page.Data(), ssi.parsed, |page.Data()|);
        assert Decided() <= Response(cfg, page);
        if connection == AtEof {
          assert pcb.written + HeaderLeft() == pcb.written;
          assert Decided() == Response(cfg, page);
          assert page.Data()[file..ssi.parsed] == "";
          if ssi.tagState == TagSending {
            assert ssi.InsertLeft() == InsertAt(cfg, page.Data(), ssi.parsed);
          }
          assert BodyLeft() == LostInsert(cfg, page);
        }
      } else {
        assert Decided() <= Response(cfg, page);
        assert connection == AtEof ==> page.Data()[..file] == page.Data();
      }
    }
  }

  /** A page that is a single tag, with no handler registered: of its response the client gets the
      tag, and the text that was to report the unknown tag is lost. */
  lemma LosesItsInsert(cfg: SsiConfig) returns (page: Page)
    requires !cfg.registered
    ensures page.Valid() && page.headers == None && page.tagCheck && page.Data() == "<!--#a-->"
    ensures LostInsert(cfg, page) == "<b>***UNKNOWN TAG a***</b>"
    ensures Response(cfg, page) == "<!--#a-->" + "<b>***UNKNOWN TAG a***</b>"
  {
    hide InsertAt;
    page := Page(None, Some("<!--#a-->"), true);
    OneTag(cfg, page.Data());
    NoTagsYet(page.Data(), 8);
    ExpandWithoutTags(cfg, page.Data(), 8);
    assert page.Data()[..8] + [page.Data()[8]] == page.Data();
  }

  lemma OneTag(cfg: SsiConfig, data: string)
    requires !cfg.registered && data == "<!--#a-->"
    ensures InsertAt(cfg, data, 9) == "<b>***UNKNOWN TAG a***</b>"
  {
    hide StateAfter, TagEnding;
    assert TagText("", "a", "") == data;
    assert data[0..] == data;
    StartOfPage(cfg, data);
    WrittenTagIsRecognised(data, 0, "", "a", "");
    assert CString("a") == "a" by { assert CString("") == ""; }
  }

  /** The shortest tag has nine characters. */
  lemma {:induction false} NoTagsYet(page: string, n: nat)
    requires n <= |page| && n < 9
    ensures TagCount(page, n) == 0
  {
    hide StateAfter, Feed, TagEnding;
    if n > 0 {
      RecognisedTagWasWritten(page, n);
      NoTagsYet(page, n - 1);
    }
  }
}
