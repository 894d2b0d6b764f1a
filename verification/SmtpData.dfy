/** What smtp_verify lets through, and what the mail looks like to the server that receives it. */
module SmtpData {
  import opened Common
  import opened SmtpText

  // ----- smtp_verify -----

  /** Seven bits and no line breaks. */
  predicate Plain(data: string) {
    forall k :: 0 <= k < |data| ==> data[k] < 128 as char && data[k] != '\r' && data[k] != '\n'
  }

  /** Seven bits, an LF only after a CR, and never two CRs together. A CR without an LF passes. */
  predicate Lines(data: string) {
    && (forall k :: 0 <= k < |data| ==> data[k] < 128 as char)
    && (forall k :: 0 <= k < |data| && data[k] == '\n' ==> k > 0 && data[k - 1] == '\r')
    && (forall k :: 0 < k < |data| && data[k] == '\r' ==> data[k - 1] != '\r')
  }

  method Verify(data: string, linebreaksAllowed: bool) returns (ok: bool)
    ensures ok <==> if linebreaksAllowed then Lines(data) else Plain(data)
  {
    var lastWasCr := false;
    for i := 0 to |data|
      invariant linebreaksAllowed ==> Lines(data[..i]) && (lastWasCr <==> i > 0 && data[i - 1] == '\r')
      invariant !linebreaksAllowed ==> Plain(data[..i]) && !lastWasCr
    {
      var current := data[i];
      assert data[..i + 1][i] == current && (i > 0 ==> data[..i + 1][i - 1] == data[i - 1]);
      if current >= 128 as char {
        return false;
      }
      if current == '\r' {
        if !linebreaksAllowed {
          return false;
        }
        if lastWasCr {
          return false;
        }
        lastWasCr := true;
      } else {
        if current == '\n' {
          if !lastWasCr {
            return false;
          }
        }
        lastWasCr := false;
      }
    }
    assert data[..|data|] == data;
    return true;
  }

  /** What the comment of smtp_verify asks for: seven bits, and neither a CR nor an LF alone. */
  predicate Paired(data: string) {
    && (forall k :: 0 <= k < |data| ==> data[k] < 128 as char)
    && (forall k :: 0 <= k < |data| && data[k] == '\n' ==> k > 0 && data[k - 1] == '\r')
    && (forall k :: 0 <= k < |data| && data[k] == '\r' ==> k + 1 < |data| && data[k + 1] == '\n')
  }

  /** Without line breaks what gets through is of that form and has no CR or LF at all; with them a
      text is of that form exactly if it gets through and every CR is followed by an LF. */
  lemma VerifiedTexts(data: string)
    ensures Plain(data) <==> Paired(data) && '\r' !in data && '\n' !in data
    ensures Paired(data) <==>
            Lines(data) && forall k :: 0 <= k < |data| && data[k] == '\r' ==> k + 1 < |data| && data[k + 1] == '\n'
  {
  }

  /** A text that gets through and is not of that form. */
  lemma SingleCrPasses()
    ensures Lines("a\rb") && !Paired("a\rb")
  {
    assert "a\rb"[1] == '\r' && "a\rb"[2] != '\n';
  }

  // ----- The DATA stream -----

  const BODY_FINISHED := "\r\n.\r\n"

  const HEADER_1 := "From: <"
  const HEADER_2 := ">\r\nTo: <"
  const HEADER_3 := ">\r\nSubject: "
  const HEADER_4 := "\r\n\r\n"

  function Header(sender: string, recipient: string, subject: string): string {
    HEADER_1 + sender + HEADER_2 + recipient + HEADER_3 + subject + HEADER_4
  }

  function DataStream(sender: string, recipient: string, subject: string, body: string): string {
    Header(sender, recipient, subject) + body + BODY_FINISHED
  }

  // ----- A server that follows section 4.5.2 of RFC 5321 -----

  datatype Delivery = Delivery(mail: string, rest: string)

  /** A leading dot taken off. */
  function Undotted(line: string): string {
    if line != "" && line[0] == '.' then line[1..] else line
  }

  /** The mail data up to the line that holds a single dot, a leading dot taken off every other
      line, and what comes after; `None` as long as that line has not arrived. */
  function Receive(stream: string): (d: Option<Delivery>)
    decreases |stream|
  {
    match Find(stream, CRLF, 0)
    case None => None
    case Some(end) =>
      var line, rest := stream[..end], stream[end + 2..];
      if line == "." then Some(Delivery("", rest))
      else
        match Receive(rest)
        case None => None
        case Some(d) => Some(Delivery(Undotted(line) + CRLF + d.mail, d.rest))
  }

  lemma ReceiveLine(line: string, rest: string)
    requires '\r' !in line && line != "."
    ensures Receive(line + CRLF + rest) ==
            match Receive(rest) {
              case None => None
              case Some(d) => Some(Delivery(Undotted(line) + CRLF + d.mail, d.rest))
            }
  {
    var stream := line + CRLF + rest;
    LineEnds(line, rest, 0);
    assert stream[..|line|] == line && stream[|line| + 2..] == rest;
  }

  lemma ReceiveDot(rest: string)
    ensures Receive("." + CRLF + rest) == Some(Delivery("", rest))
  {
    var stream := "." + CRLF + rest;
    LineEnds(".", rest, 0);
    assert stream[..1] == "." && stream[3..] == rest;
  }

  /** The mail arrives as it was written, and the server knows exactly where it ends whatever
      comes next, if and only if the body does not begin with a dot: the client does not double it. */
  lemma Transparency(sender: string, recipient: string, subject: string, body: string, next: string)
    requires Plain(sender) && Plain(recipient) && Plain(subject) && Plain(body)
    ensures Receive(DataStream(sender, recipient, subject, body) + next) ==
              Some(Delivery(Header(sender, recipient, subject) + body + CRLF, next))
            <==> !(body != "" && body[0] == '.')
  {
    hide Receive, Header;
    var header := Header(sender, recipient, subject);
    var rest := body + BODY_FINISHED + next;
    ReceiveHeader(sender, recipient, subject, rest);
    assert DataStream(sender, recipient, subject, body) + next == header + rest;
    ReceiveBody(body, next);
    var d := Receive(rest).value;
    assert header + body + CRLF == header + (body + CRLF);
    assert header + d.mail == header + (body + CRLF) ==> (header + d.mail)[|header|..] == d.mail == body + CRLF;
  }

  /** The header is three lines and an empty one. */
  lemma HeaderLines(sender: string, recipient: string, subject: string, rest: string)
    ensures var a, b, c := "From: <" + sender + ">", "To: <" + recipient + ">", "Subject: " + subject;
            Header(sender, recipient, subject) + rest == a + CRLF + (b + CRLF + (c + CRLF + ("" + CRLF + rest)))
  {
    var last := "" + CRLF + rest;
    var afterB := "Subject: " + subject + CRLF + last;
    var afterA := "To: <" + recipient + ">" + CRLF + afterB;
    SubjectLine(subject, rest);
    RecipientLine(recipient, afterB);
    SenderLine(sender, afterA);
    RightNested(sender, recipient, subject, rest);
  }

  lemma SubjectLine(subject: string, rest: string)
    ensures HEADER_3 + (subject + (HEADER_4 + rest)) ==
            ">" + CRLF + ("Subject: " + subject + CRLF + ("" + CRLF + rest))
  {
    assert HEADER_4 + rest == CRLF + ("" + CRLF + rest);
    assert subject + (CRLF + ("" + CRLF + rest)) == subject + CRLF + ("" + CRLF + rest);
  }

  lemma RecipientLine(recipient: string, rest: string)
    ensures HEADER_2 + (recipient + (">" + CRLF + rest)) == ">" + CRLF + ("To: <" + recipient + ">" + CRLF + rest)
  {
    assert recipient + (">" + CRLF + rest) == recipient + ">" + CRLF + rest;
  }

  lemma SenderLine(sender: string, rest: string)
    ensures HEADER_1 + (sender + (">" + CRLF + rest)) == "From: <" + sender + ">" + CRLF + rest
  {
    assert sender + (">" + CRLF + rest) == sender + ">" + CRLF + rest;
  }

  lemma RightNested(sender: string, recipient: string, subject: string, rest: string)
    ensures Header(sender, recipient, subject) + rest ==
            HEADER_1 + (sender + (HEADER_2 + (recipient + (HEADER_3 + (subject + (HEADER_4 + rest))))))
  {
  }

  lemma ReceiveHeader(sender: string, recipient: string, subject: string, rest: string)
    requires Plain(sender) && Plain(recipient) && Plain(subject)
    ensures Receive(Header(sender, recipient, subject) + rest) ==
            match Receive(rest) {
              case None => None
              case Some(d) => Some(Delivery(Header(sender, recipient, subject) + d.mail, d.rest))
            }
  {
    hide Receive, Header;
    var a, b, c := "From: <" + sender + ">", "To: <" + recipient + ">", "Subject: " + subject;
    ReceiveLine("", rest);
    ReceiveLine(c, "" + CRLF + rest);
    ReceiveLine(b, c + CRLF + ("" + CRLF + rest));
    ReceiveLine(a, b + CRLF + (c + CRLF + ("" + CRLF + rest)));
    HeaderLines(sender, recipient, subject, rest);
    if Receive(rest).Some? {
      HeaderLines(sender, recipient, subject, Receive(rest).value.mail);
    }
  }

  lemma ReceiveBody(body: string, next: string)
    requires Plain(body)
    ensures Receive(body + BODY_FINISHED + next).Some?
    ensures Receive(body + BODY_FINISHED + next).value == Delivery(body + CRLF, next) <==>
            !(body != "" && body[0] == '.')
  {
    hide Receive;
    ReceiveDot(next);
    var dot := "." + CRLF + next;
    if body == "." {
      ReceiveDot(dot);
      assert body + BODY_FINISHED + next == "." + CRLF + dot;
      assert |dot| > |next|;
    } else {
      ReceiveLine(body, dot);
      assert body + BODY_FINISHED + next == body + CRLF + dot;
      assert body + CRLF + "" == body + CRLF;
      if body != "" && body[0] == '.' {
        assert |body[1..] + CRLF + ""| < |body + CRLF|;
      }
    }
  }
}
