/** The SMTP session as a machine: what every callback does to it, whatever the server sends, the
    stack refuses and the clock does, and what holds of every run. */
module SmtpDialogue {
  import opened Base64
  import opened Chains
  import opened Common
  import opened SmtpData
  import opened SmtpReply
  import opened SmtpText

  const SMTP_TX_BUF_LEN := 255
  // in calls of the poll callback, two seconds each
  const SMTP_TIMEOUT := 240
  const SMTP_TIMEOUT_DATABLOCK := 360
  const SMTP_TIMEOUT_DATATERM := 1200

  const SMTP_RESP_LOGIN_UNAME := "VXNlcm5hbWU6"
  const SMTP_RESP_LOGIN_PASS := "UGFzc3dvcmQ6"
  const AUTH_LOGIN := "AUTH LOGIN\r\n"
  const DATA := "DATA\r\n"
  const QUIT := "QUIT\r\n"

  // ----- The mail and the commands made of it -----

  datatype Mail = Mail(sender: string, recipient: string, subject: string, body: string,
                       address: string, username: string, password: string)

  function Ehlo(m: Mail): string {
    "EHLO [" + m.address + "]\r\n"
  }

  function PlainData(m: Mail): string {
    "\0" + m.username + "\0" + m.password
  }

  /** What the source asserts of the lengths, and what it has verified of the texts. */
  ghost predicate Sendable(m: Mail) {
    && 9 + |m.address| <= SMTP_TX_BUF_LEN
    && Bytes(m.username) && Bytes(m.password) && Bytes(PlainData(m))
    && 13 + EncodedLength(|PlainData(m)|) <= SMTP_TX_BUF_LEN
    && 2 + EncodedLength(|m.username|) <= SMTP_TX_BUF_LEN
    && 2 + EncodedLength(|m.password|) <= SMTP_TX_BUF_LEN
    && 15 + |m.sender| <= SMTP_TX_BUF_LEN && 13 + |m.recipient| <= SMTP_TX_BUF_LEN
    && 31 + |m.sender| + |m.recipient| + |m.subject| <= SMTP_TX_BUF_LEN
    && |m.body| <= 0xFFFF
    && Plain(m.sender) && Plain(m.recipient) && Plain(m.subject) && Plain(m.body)
  }

  function AuthPlainLine(m: Mail): string
    requires Bytes(PlainData(m))
  {
    "AUTH PLAIN " + Encoded(PlainData(m)) + CRLF
  }

  function Base64Line(s: string): string
    requires Bytes(s)
  {
    Encoded(s) + CRLF
  }

  function MailLine(m: Mail): string {
    "MAIL FROM: <" + m.sender + ">\r\n"
  }

  function RcptLine(m: Mail): string {
    "RCPT TO: <" + m.recipient + ">\r\n"
  }

  // ----- The legal dialogues -----

  datatype State =
    | Null | Helo | AuthPlain | AuthLoginUname | AuthLoginPass | AuthLogin
    | MailFrom | Rcpt | Data | Body | Quit | Closed

  /** How the client has come to log in, if it has. */
  datatype Path = Direct | PlainAuth | LoginAuth

  ghost function Prologue(m: Mail, path: Path): string
    requires Sendable(m)
  {
    match path
    case Direct => Ehlo(m)
    case PlainAuth => Ehlo(m) + AuthPlainLine(m)
    case LoginAuth => Ehlo(m) + AUTH_LOGIN + Base64Line(m.username) + Base64Line(m.password)
  }

  ghost function Envelope(m: Mail, path: Path): string
    requires Sendable(m)
  {
    Prologue(m, path) + MailLine(m) + RcptLine(m) + DATA
  }

  /** Everything the client ever has to say. */
  ghost function Dialogue(m: Mail, path: Path): string
    requires Sendable(m)
  {
    Envelope(m, path) + DataStream(m.sender, m.recipient, m.subject, m.body) + QUIT
  }

  /** What it has said when it waits in a state. */
  ghost function Said(m: Mail, path: Path, state: State, bodySent: nat): string
    requires Sendable(m) && bodySent <= |m.body|
  {
    match state
    case Null => ""
    case Helo => Ehlo(m)
    case AuthPlain => Ehlo(m) + AuthPlainLine(m)
    case AuthLoginUname => Ehlo(m) + AUTH_LOGIN
    case AuthLoginPass => Ehlo(m) + AUTH_LOGIN + Base64Line(m.username)
    case AuthLogin => Ehlo(m) + AUTH_LOGIN + Base64Line(m.username) + Base64Line(m.password)
    case MailFrom => Prologue(m, path) + MailLine(m)
    case Rcpt => Prologue(m, path) + MailLine(m) + RcptLine(m)
    case Data => Envelope(m, path)
    case Body => Envelope(m, path) + Header(m.sender, m.recipient, m.subject) + m.body[..bodySent]
    case Quit => Envelope(m, path) + DataStream(m.sender, m.recipient, m.subject, m.body)
    case Closed => Dialogue(m, path)
  }

  /** The codes the replies must have had by then, in their order. */
  function Codes(path: Path, state: State): seq<nat> {
    var login := match path { case Direct => [] case PlainAuth => [235] case LoginAuth => [334, 334, 235] };
    match state
    case Null => []
    case Helo => [220]
    case AuthPlain => [220, 250]
    case AuthLoginUname => [220, 250]
    case AuthLoginPass => [220, 250, 334]
    case AuthLogin => [220, 250, 334, 334]
    case MailFrom => [220, 250] + login
    case Rcpt => [220, 250] + login + [250]
    case Data => [220, 250] + login + [250, 250]
    case Body => [220, 250] + login + [250, 250, 354]
    case Quit => [220, 250] + login + [250, 250, 354]
    case Closed => [220, 250] + login + [250, 250, 354, 250]
  }

  predicate Fits(path: Path, state: State) {
    match state
    case Null => path == Direct
    case Helo => path == Direct
    case AuthPlain => path == PlainAuth
    case AuthLoginUname => path == LoginAuth
    case AuthLoginPass => path == LoginAuth
    case AuthLogin => path == LoginAuth
    case _ => true
  }

  lemma SaidIsPrefix(m: Mail, path: Path, state: State, bodySent: nat)
    requires Sendable(m) && bodySent <= |m.body| && Fits(path, state)
    ensures Said(m, path, state, bodySent) <= Dialogue(m, path)
  {
    hide Ehlo, AuthPlainLine, Base64Line, MailLine, RcptLine, Header;
    var envelope, header := Envelope(m, path), Header(m.sender, m.recipient, m.subject);
    assert Prologue(m, path) <= envelope <= Dialogue(m, path);
    assert header + m.body[..bodySent] <= header + m.body <= DataStream(m.sender, m.recipient, m.subject, m.body);
    assert envelope + header + m.body[..bodySent] == envelope + (header + m.body[..bodySent]);
  }

  // ----- The session -----

  datatype Result = Ok | ErrClosed | ErrTimeout | ErrSvrResp

  /** A call of the result callback. */
  datatype Outcome = Outcome(result: Result, srvErr: nat)

  /** What became of the received text: thrown away, or taken for a reply. */
  datatype Piece = Ignored(text: string) | Reply(text: string)

  /** The session's fields, what it has written, and its history. It is over once the result
      callback has been called. */
  datatype Talk = Talk(state: State, timer: nat, p: Option<string>, bodySent: nat, path: Path,
                       written: string, heard: seq<Piece>, outcomes: seq<Outcome>)

  const START := Talk(Null, SMTP_TIMEOUT, None, 0, Direct, "", [], [])

  datatype Event = Recv(data: string) | RecvEnd | Sent | Poll | Error

  /** What the stack decides while the client handles one event: whether the connection could be
      closed, the command was taken, how much of the body fits, and whether that part of the body
      and the end of it were taken. */
  datatype Choice = Choice(closed: bool, command: bool, space: nat, body: bool, end: bool)

  function Free(t: Talk, result: Result, srvErr: nat): Talk {
    t.(outcomes := t.outcomes + [Outcome(result, srvErr)])
  }

  function Close(t: Talk, c: Choice, result: Result, srvErr: nat): Talk {
    if c.closed then Free(t, result, srvErr) else t
  }

  /** As much of the body as fits, if it is taken. */
  function SendPart(m: Mail, t: Talk, c: Choice): (after: Talk)
    requires t.bodySent <= |m.body|
    ensures after.bodySent <= |m.body|
  {
    var left := |m.body| - t.bodySent;
    var len := if left > c.space then c.space else left;
    if len > 0 && c.body then
      t.(timer := SMTP_TIMEOUT_DATABLOCK, bodySent := t.bodySent + len,
         written := t.written + m.body[t.bodySent..t.bodySent + len])
    else t
  }

  /** The end of the body behind it. */
  function SendEnd(m: Mail, t: Talk, c: Choice): Talk {
    if t.bodySent == |m.body| && c.end then
      t.(timer := SMTP_TIMEOUT_DATATERM, state := Quit, written := t.written + BODY_FINISHED)
    else t
  }

  function SendBody(m: Mail, t: Talk, c: Choice): Talk
    requires t.bodySent <= |m.body|
  {
    if t.state != Body then t else SendEnd(m, SendPart(m, t, c), c)
  }

  datatype Answer = Answer(state: State, path: Path, text: string)

  function Contains(s: string, text: string): bool {
    Find(s, text, 0).Some?
  }

  /** Where the reply names the ways to log in. */
  function AuthAt(p: string): Option<nat> {
    var sp := Find(p, "AUTH ", 0);
    if sp.Some? then sp else Find(p, "AUTH=", 0)
  }

  /** The line from that keyword up to its CRLF. */
  function AuthLine(p: string): (line: Option<string>)
    ensures line.Some? ==> |line.value| >= 5
  {
    match AuthAt(p)
    case None => None
    case Some(auth) =>
      match Find(p, CRLF, auth)
      case None => None
      case Some(crlf) => KeywordFirst(p, auth, crlf); Some(p[auth..crlf])
  }

  /** The keyword holds no CR, so the CRLF comes after it. */
  lemma KeywordFirst(p: string, auth: nat, crlf: nat)
    requires auth + 5 <= |p| && (p[auth..auth + 5] == "AUTH " || p[auth..auth + 5] == "AUTH=")
    requires auth <= crlf <= |p| - 2 && p[crlf..crlf + 2] == CRLF
    ensures crlf >= auth + 5
  {
    assert p[crlf] == p[crlf..crlf + 2][0] == '\r';
    forall k | auth <= k < auth + 5 ensures p[k] != '\r' {
      assert p[k] == p[auth..auth + 5][k - auth];
    }
  }

  /** What the line offers after the keyword, as a C string. */
  function Offer(line: string): string
    requires |line| >= 5
  {
    CString(line[5..])
  }

  ghost function AuthOrMail(m: Mail, p: string): Answer
    requires Sendable(m)
  {
    var line := AuthLine(p);
    if line.Some? && Contains(Offer(line.value), "PLAIN") then Answer(AuthPlain, PlainAuth, AuthPlainLine(m))
    else if line.Some? && Contains(Offer(line.value), "LOGIN") then Answer(AuthLoginUname, LoginAuth, AUTH_LOGIN)
    else Answer(MailFrom, Direct, MailLine(m))
  }

  /** The next command and the state to wait in for its reply; `None` if the reply will not do. */
  ghost function Respond(m: Mail, t: Talk, code: nat, p: string): Option<Answer>
    requires Sendable(m)
  {
    match t.state
    case Null => if code == 220 then Some(Answer(Helo, Direct, Ehlo(m))) else None
    case Helo => if code == 250 then Some(AuthOrMail(m, p)) else None
    case AuthLogin => if code == 235 then Some(Answer(MailFrom, t.path, MailLine(m))) else None
    case AuthPlain => if code == 235 then Some(Answer(MailFrom, t.path, MailLine(m))) else None
    case AuthLoginUname =>
      if code == 334 && Contains(p, SMTP_RESP_LOGIN_UNAME)
      then Some(Answer(AuthLoginPass, t.path, Base64Line(m.username))) else None
    case AuthLoginPass =>
      if code == 334 && Contains(p, SMTP_RESP_LOGIN_PASS)
      then Some(Answer(AuthLogin, t.path, Base64Line(m.password))) else None
    case MailFrom => if code == 250 then Some(Answer(Rcpt, t.path, RcptLine(m))) else None
    case Rcpt => if code == 250 then Some(Answer(Data, t.path, DATA)) else None
    case Data => if code == 354 then Some(Answer(Body, t.path, Header(m.sender, m.recipient, m.subject))) else None
    case Body => None
    case Quit => if code == 250 then Some(Answer(Closed, t.path, QUIT)) else None
    case Closed => None
  }

  /** The command is written and the session moves on. */
  ghost function Advance(m: Mail, t: Talk, c: Choice, a: Answer): Talk
    requires t.p.Some? && t.bodySent <= |m.body|
  {
    var t1 := t.(state := a.state, path := a.path, timer := SMTP_TIMEOUT, p := None,
                 heard := t.heard + [Reply(t.p.value)], written := t.written + a.text);
    if a.state == Body then SendBody(m, t1, c)
    else if a.state == Closed then Free(t1, Ok, 0)
    else t1
  }

  /** What the received text calls for. */
  ghost function React(m: Mail, t: Talk, c: Choice): Talk
    requires Sendable(m) && t.bodySent <= |m.body|
  {
    if t.p == None then t
    else
      var p := t.p.value;
      var code := Code(p);
      if code == 0 then t.(p := None, heard := t.heard + [Ignored(p)])
      else if !Accepts(p) || t.state == Closed then t
      else
        match Respond(m, t, code, p)
        case None => Close(t, c, ErrSvrResp, code)
        case Some(a) => if c.command then Advance(m, t, c, a) else t
  }

  ghost function Idle(m: Mail, t: Talk, c: Choice): Talk
    requires Sendable(m) && t.bodySent <= |m.body|
  {
    if t.timer == 0 then Close(t, c, ErrTimeout, 0)
    else if t.state == Body then SendBody(m, t, c)
    else React(m, t, c)
  }

  function Pending(t: Talk): string {
    if t.p == None then "" else t.p.value
  }

  // ----- What the code can hold -----

  /** The line that offers ways to log in passes through the transmit buffer, a NUL behind it. */
  predicate OfferFits(p: string) {
    AuthLine(p).Some? ==> |AuthLine(p).value| <= SMTP_TX_BUF_LEN
  }

  /** The pending text is one the code handles: it fits a pbuf, the reply scanner ends on it, and an
      offer that is to be copied fits the buffer. */
  ghost predicate Manageable(t: Talk) {
    t.p.Some? ==>
      && |t.p.value| < U16
      && (Code(t.p.value) != 0 ==> !WrapsTo(t.p.value, '-'))
      && (t.state == Helo && Code(t.p.value) == 250 && Finished(t.p.value) ==> OfferFits(t.p.value))
  }

  /** The session once an event's text has joined what is pending. */
  function Arriving(t: Talk, e: Event): Talk {
    if t.outcomes == [] && e.Recv? then t.(p := Some(Pending(t) + e.data)) else t
  }

  /** One callback. */
  ghost function Step(m: Mail, t: Talk, e: Event, c: Choice): Talk
    requires Sendable(m) && t.bodySent <= |m.body|
  {
    if t.outcomes != [] then t
    else
      match e
      case Recv(_) => React(m, Arriving(t, e), c)
      case RecvEnd => Close(t, c, ErrClosed, 0)
      case Sent => Idle(m, t, c)
      case Poll => Idle(m, t.(timer := if t.timer != 0 then t.timer - 1 else 0), c)
      case Error => Free(t, ErrClosed, 0)
  }

  // ----- What holds of every run -----

  /** The codes of the replies taken, all of which had wholly arrived. */
  function Taken(heard: seq<Piece>): seq<nat> {
    if heard == [] then []
    else
      var last := heard[|heard| - 1];
      Taken(heard[..|heard| - 1]) + if last.Reply? then [Code(last.text)] else []
  }

  predicate AllFinished(heard: seq<Piece>) {
    forall k :: 0 <= k < |heard| && heard[k].Reply? ==> Finished(heard[k].text)
  }

  ghost predicate Legal(m: Mail, t: Talk)
    requires Sendable(m)
  {
    && t.bodySent <= |m.body| && Fits(t.path, t.state)
    && (t.state != Body ==> t.bodySent == if t.state == Quit || t.state == Closed then |m.body| else 0)
    && t.written == Said(m, t.path, t.state, t.bodySent)
    && Taken(t.heard) == Codes(t.path, t.state) && AllFinished(t.heard)
    && |t.outcomes| <= 1
    && (t.outcomes != [] && t.outcomes[0].result == Ok <==> t.state == Closed)
  }

  lemma StartIsLegal(m: Mail)
    requires Sendable(m)
    ensures Legal(m, START)
  {
  }

  /** Each answer adds to what has been said exactly what the next state needs, and follows the
      code it must follow. */
  lemma RespondIsLegal(m: Mail, t: Talk, code: nat, p: string)
    requires Sendable(m) && Legal(m, t) && Respond(m, t, code, p).Some?
    ensures var a := Respond(m, t, code, p).value;
            && Fits(a.path, a.state) && a.state != Quit
            && t.bodySent == (if a.state == Closed then |m.body| else 0)
            && Said(m, a.path, a.state, t.bodySent) == t.written + a.text
            && Codes(a.path, a.state) == Codes(t.path, t.state) + [code]
  {
    hide Ehlo, AuthPlainLine, Base64Line, MailLine, RcptLine, Header, DataStream, AuthLine, Contains, Offer, Taken,
         AllFinished;
    var a := Respond(m, t, code, p).value;
    assert m.body[..0] == "";
    match t.state {
      case AuthLogin => assert t.path == LoginAuth;
      case AuthPlain => assert t.path == PlainAuth;
      case _ =>
    }
  }

  lemma SendPartAnyEnd(m: Mail, t: Talk, c: Choice, end: bool)
    requires t.bodySent <= |m.body|
    ensures SendPart(m, t, c.(end := end)) == SendPart(m, t, c) && SendPart(m, t, c).state == t.state
  {
  }

  lemma SendBodyAnyCommand(m: Mail, t: Talk, c: Choice)
    requires t.bodySent <= |m.body|
    ensures SendBody(m, t, c.(command := true)) == SendBody(m, t, c)
  {
  }

  lemma RespondMoves(m: Mail, t: Talk, code: nat, p: string)
    requires Sendable(m) && Respond(m, t, code, p).Some?
    ensures Respond(m, t, code, p).value.state != t.state && Respond(m, t, code, p).value.text != ""
  {
  }

  lemma BodyGrows(before: string, body: string, sent: nat, len: nat)
    requires sent + len <= |body|
    ensures before + body[..sent] + body[sent..sent + len] == before + body[..sent + len]
  {
    assert body[..sent] + body[sent..sent + len] == body[..sent + len];
  }

  lemma BodyEnds(envelope: string, header: string, body: string)
    ensures envelope + header + body[..|body|] + BODY_FINISHED == envelope + (header + body + BODY_FINISHED)
  {
    assert body[..|body|] == body;
  }

  lemma SendPartIsLegal(m: Mail, t: Talk, c: Choice)
    requires Sendable(m) && Legal(m, t) && t.outcomes == [] && t.state == Body
    ensures Legal(m, SendPart(m, t, c)) && SendPart(m, t, c).outcomes == [] && SendPart(m, t, c).state == Body
  {
    hide Taken, AllFinished, Envelope, Header, Sendable;
    var left := |m.body| - t.bodySent;
    var len := if left > c.space then c.space else left;
    BodyGrows(Envelope(m, t.path) + Header(m.sender, m.recipient, m.subject), m.body, t.bodySent, len);
  }

  lemma SendEndIsLegal(m: Mail, t: Talk, c: Choice)
    requires Sendable(m) && Legal(m, t) && t.outcomes == [] && t.state == Body
    ensures Legal(m, SendEnd(m, t, c)) && SendEnd(m, t, c).outcomes == []
  {
    hide Taken, AllFinished, Envelope, Header, Sendable;
    BodyEnds(Envelope(m, t.path), Header(m.sender, m.recipient, m.subject), m.body);
  }

  lemma SendBodyIsLegal(m: Mail, t: Talk, c: Choice)
    requires Sendable(m) && Legal(m, t) && t.outcomes == []
    ensures Legal(m, SendBody(m, t, c)) && SendBody(m, t, c).outcomes == []
  {
    hide Legal, SendPart, SendEnd, Sendable;
    LegalBody(m, t);
    if t.state == Body {
      SendPartIsLegal(m, t, c);
      SendEndIsLegal(m, SendPart(m, t, c), c);
    }
  }

  lemma LegalBody(m: Mail, t: Talk)
    requires Sendable(m) && Legal(m, t)
    ensures t.bodySent <= |m.body|
  {
  }

  lemma HeardOne(heard: seq<Piece>, piece: Piece)
    requires AllFinished(heard) && (piece.Reply? ==> Finished(piece.text))
    ensures AllFinished(heard + [piece])
    ensures Taken(heard + [piece]) == Taken(heard) + if piece.Reply? then [Code(piece.text)] else []
  {
  }

  /** A text that is answered has a code from 100 on, so it is a whole reply and not one the scanner
      takes for it. */
  lemma AnsweredIsFinished(m: Mail, t: Talk, p: string)
    requires Sendable(m) && Respond(m, t, Code(p), p).Some? && Accepts(p)
    ensures Finished(p)
  {
    hide Code, Finished, Accepts;
    CodeSettles(p);
  }

  lemma ReactIsLegal(m: Mail, t: Talk, c: Choice)
    requires Sendable(m) && Legal(m, t) && t.outcomes == []
    ensures Legal(m, React(m, t, c))
  {
    hide Said, Codes, Taken, AllFinished, Respond, Code, Finished, Accepts, SendBody, Fits;
    if t.p.Some? {
      var p := t.p.value;
      HeardOne(t.heard, Ignored(p));
      if Accepts(p) {
        var a := Respond(m, t, Code(p), p);
        if a.Some? {
          AnsweredIsFinished(m, t, p);
          HeardOne(t.heard, Reply(p));
          RespondIsLegal(m, t, Code(p), p);
          if a.value.state == Body {
            var t1 := t.(state := Body, path := a.value.path, timer := SMTP_TIMEOUT, p := None,
                         heard := t.heard + [Reply(p)], written := t.written + a.value.text);
            SendBodyIsLegal(m, t1, c);
          }
        }
      }
    }
  }

  /** Every callback keeps the dialogue legal. */
  lemma StepIsLegal(m: Mail, t: Talk, e: Event, c: Choice)
    requires Sendable(m) && Legal(m, t)
    ensures Legal(m, Step(m, t, e, c))
  {
    hide Said, Codes, Taken, AllFinished, React, SendBody, Fits;
    if t.outcomes == [] {
      match e
      case Recv(data) => ReactIsLegal(m, t.(p := Some(Pending(t) + data)), c);
      case Sent => ReactIsLegal(m, t, c); SendBodyIsLegal(m, t, c);
      case Poll =>
        var t1 := t.(timer := if t.timer != 0 then t.timer - 1 else 0);
        ReactIsLegal(m, t1, c);
        SendBodyIsLegal(m, t1, c);
      case _ =>
    }
  }

  // ----- What has been received -----

  function Texts(heard: seq<Piece>): string {
    if heard == [] then "" else Texts(heard[..|heard| - 1]) + heard[|heard| - 1].text
  }

  /** Everything received so far, taken, thrown away or pending. */
  function Received(t: Talk): string {
    Texts(t.heard) + Pending(t)
  }

  /** A callback uses no text but what has arrived, and no text twice. */
  lemma StepKeepsReceived(m: Mail, t: Talk, e: Event, c: Choice)
    requires Sendable(m) && t.bodySent <= |m.body|
    ensures Received(Step(m, t, e, c)) == if e.Recv? && t.outcomes == [] then Received(t) + e.data else Received(t)
  {
    hide Respond, Code, Accepts, Texts, React, SendBody;
    if t.outcomes == [] {
      match e
      case Recv(data) =>
        ReactKeepsReceived(m, t.(p := Some(Pending(t) + data)), c);
        assert Texts(t.heard) + (Pending(t) + data) == Received(t) + data;
      case Sent =>
        ReactKeepsReceived(m, t, c);
        SendBodyHears(m, t, c);
      case Poll =>
        var t1 := t.(timer := if t.timer != 0 then t.timer - 1 else 0);
        ReactKeepsReceived(m, t1, c);
        SendBodyHears(m, t1, c);
      case _ =>
    }
  }

  lemma ReactKeepsReceived(m: Mail, t: Talk, c: Choice)
    requires Sendable(m) && t.bodySent <= |m.body|
    ensures Received(React(m, t, c)) == Received(t)
  {
    hide Respond, Code, Accepts, Texts, SendBody;
    if t.p.Some? {
      TextsOne(t.heard, Ignored(t.p.value));
      TextsOne(t.heard, Reply(t.p.value));
      var a := Respond(m, t, Code(t.p.value), t.p.value);
      if a.Some? {
        SendBodyHears(m, t.(state := Body, path := a.value.path, timer := SMTP_TIMEOUT, p := None,
                            heard := t.heard + [Reply(t.p.value)], written := t.written + a.value.text), c);
      }
    }
  }

  lemma TextsOne(heard: seq<Piece>, piece: Piece)
    ensures Texts(heard + [piece]) == Texts(heard) + piece.text
  {
    var more := heard + [piece];
    assert more[..|more| - 1] == heard;
  }

  lemma SendBodyHears(m: Mail, t: Talk, c: Choice)
    requires t.bodySent <= |m.body|
    ensures SendBody(m, t, c).heard == t.heard && SendBody(m, t, c).p == t.p && SendBody(m, t, c).outcomes == t.outcomes
  {
  }

  // ----- Whole runs -----

  /** The session after any callbacks in any order, with any decisions of the stack; `None` once the
      server has sent what the code cannot hold. */
  ghost function Run(m: Mail, events: seq<(Event, Choice)>): (t: Option<Talk>)
    requires Sendable(m)
    ensures t.Some? ==> t.value.bodySent <= |m.body|
    decreases |events|
  {
    if events == [] then Some(START)
    else
      var last := |events| - 1;
      match Run(m, events[..last])
      case None => None
      case Some(t) =>
        if !Manageable(Arriving(t, events[last].0)) then None
        else
          StepKeepsBody(m, t, events[last].0, events[last].1);
          Some(Step(m, t, events[last].0, events[last].1))
  }

  lemma StepKeepsBody(m: Mail, t: Talk, e: Event, c: Choice)
    requires Sendable(m) && t.bodySent <= |m.body|
    ensures Step(m, t, e, c).bodySent <= |m.body|
  {
    hide Respond, Code, Accepts, Sendable;
  }

  lemma {:induction false} RunIsLegal(m: Mail, events: seq<(Event, Choice)>)
    requires Sendable(m) && Run(m, events).Some?
    ensures Legal(m, Run(m, events).value)
    decreases |events|
  {
    hide Legal, Step, Manageable;
    if events == [] {
      StartIsLegal(m);
    } else {
      var last := |events| - 1;
      RunIsLegal(m, events[..last]);
      StepIsLegal(m, Run(m, events[..last]).value, events[last].0, events[last].1);
    }
  }

  /** At any time of any run the client has said part of one legal dialogue, it has taken a whole
      reply with the right code for every step of it, and it has called back at most once; and it
      reports success exactly when it has said everything, the last reply before QUIT being 250. */
  lemma Safety(m: Mail, events: seq<(Event, Choice)>)
    requires Sendable(m) && Run(m, events).Some?
    ensures var t := Run(m, events).value;
            && t.written <= Dialogue(m, t.path)
            && Taken(t.heard) == Codes(t.path, t.state) && AllFinished(t.heard)
            && |t.outcomes| <= 1
            && (t.outcomes != [] && t.outcomes[0].result == Ok <==> t.written == Dialogue(m, t.path))
            && (t.outcomes != [] && t.outcomes[0].result == Ok ==>
                  |Taken(t.heard)| > 0 && Taken(t.heard)[|Taken(t.heard)| - 1] == 250)
  {
    hide Run, Dialogue, Said;
    RunIsLegal(m, events);
    var t := Run(m, events).value;
    SaidIsPrefix(m, t.path, t.state, t.bodySent);
    AllSaid(m, t.path, t.state, t.bodySent);
  }

  /** After a successful run a server that follows RFC 5321 has the header and the body and reads
      QUIT next, unless the body begins with a dot. */
  lemma MailArrives(m: Mail, events: seq<(Event, Choice)>)
    requires Sendable(m) && Run(m, events).Some?
    requires Run(m, events).value.outcomes != [] && Run(m, events).value.outcomes[0].result == Ok
    ensures var t := Run(m, events).value;
            var envelope := Envelope(m, t.path);
            && envelope <= t.written
            && (Receive(t.written[|envelope|..]) ==
                  Some(Delivery(Header(m.sender, m.recipient, m.subject) + m.body + CRLF, QUIT))
                <==> !(m.body != "" && m.body[0] == '.'))
  {
    hide Envelope, DataStream, Header, Receive, Run;
    var t := Run(m, events).value;
    Safety(m, events);
    Transparency(m.sender, m.recipient, m.subject, m.body, QUIT);
    var envelope, stream := Envelope(m, t.path), DataStream(m.sender, m.recipient, m.subject, m.body);
    assert t.written == envelope + (stream + QUIT);
  }

  /** A whole reply whose offer does not fit: 300 characters after the keyword. */
  lemma LongOffer() returns (reply: string)
    ensures |reply| == 319 && Code(reply) == 250 && Finished(reply) && !OfferFits(reply)
  {
    var filler := seq(300, _ => 'x');
    var line := "250-AUTH " + filler;
    var last := "250 ok" + CRLF;
    reply := line + CRLF + last;
    assert line[4..] == "AUTH " + filler;
    LineEnds(line, last, 4);
    LongOfferIs(reply, last);
  }

  lemma LongOfferIs(reply: string, last: string)
    requires last == "250 ok" + CRLF && |reply| == 319 && reply[311..] == last
    requires reply[..4] == "250-" && reply[4..9] == "AUTH " && Find(reply, CRLF, 4) == Some(309)
    ensures Code(reply) == 250 && Finished(reply) && !OfferFits(reply)
  {
    hide Find, Code;
    assert reply[0] == reply[..4][0] && reply[1] == reply[..4][1] && reply[2] == reply[..4][2]
           && reply[3] == reply[..4][3];
    CodeIsThreeDigits(reply, 250);
    LastLine();
    FindMissesNone(reply, "AUTH ", 0, 4);
    var auth := Find(reply, "AUTH ", 0).value;
    assert reply[auth] == reply[auth..auth + 5][0] == 'A';
    assert auth == 4;
  }

  lemma LastLine()
    ensures Finished("250 ok" + CRLF)
  {
    LineEnds("250 ok", "", 4);
    assert "250 ok" + CRLF + "" == "250 ok" + CRLF;
  }

  /** With it the server takes the client out of its buffer: after the greeting the run has no next
      state. */
  lemma LongOfferEndsTheRun(m: Mail, c: Choice) returns (greeting: (Event, Choice), offer: (Event, Choice))
    requires Sendable(m) && c.command
    ensures Run(m, [greeting]).Some? && Run(m, [greeting]).value.state == Helo
    ensures Run(m, [greeting, offer]) == None
  {
    hide Finished, Code, OfferFits, WrapsTo, Respond;
    var text := "220 ok" + CRLF;
    greeting := (Recv(text), c);
    Greeting(m);
    assert [greeting][..0] == [];
    assert Run(m, []) == Some(START);
    var t := Step(m, START, Recv(text), c);
    assert "" + text == text;
    assert t.state == Helo && t.p == None && t.outcomes == [];
    assert Run(m, [greeting]) == Some(t);
    var reply := LongOffer();
    offer := (Recv(reply), c);
    assert "" + reply == reply;
    assert !Manageable(Arriving(t, Recv(reply)));
    assert [greeting, offer][..1] == [greeting];
  }

  lemma Greeting(m: Mail)
    requires Sendable(m)
    ensures var text := "220 ok" + CRLF;
            && Code(text) == 220 && Finished(text) && !WrapsTo(text, '-')
            && Respond(m, START.(p := Some(text)), 220, text) == Some(Answer(Helo, Direct, Ehlo(m)))
  {
    var text := "220 ok" + CRLF;
    LineEnds("220 ok", "", 4);
    assert "220 ok" + CRLF + "" == text;
    CodeIsThreeDigits(text, 220);
  }

  /** QUIT is said only at the end. */
  lemma AllSaid(m: Mail, path: Path, state: State, bodySent: nat)
    requires Sendable(m) && bodySent <= |m.body| && Fits(path, state)
    ensures Said(m, path, state, bodySent) == Dialogue(m, path) <==> state == Closed
  {
    hide Ehlo, AuthPlainLine, Base64Line, MailLine, RcptLine, Header;
    if state != Closed {
      assert |Said(m, path, state, bodySent)| < |Dialogue(m, path)|;
    }
  }

  /** At every poll a session writes something, or its timer runs down, and when the timer has run
      out it is closed as soon as the stack can. */
  lemma PollsRunDown(m: Mail, t: Talk, c: Choice)
    requires Sendable(m) && Legal(m, t) && t.outcomes == []
    ensures var after := Step(m, t, Poll, c);
            && t.written <= after.written
            && (t.timer > 1 && after.written == t.written && after.outcomes == [] ==> after.timer == t.timer - 1)
            && (t.timer <= 1 ==>
                  && after.timer == 0 && after.written == t.written
                  && after.outcomes == if c.closed then [Outcome(ErrTimeout, 0)] else [])
  {
    hide React, SendBody;
    var t1 := t.(timer := if t.timer != 0 then t.timer - 1 else 0);
    ReactWrites(m, t1, c);
    SendBodyWrites(m, t1, c);
  }

  ghost predicate WritesOrWaits(t: Talk, after: Talk) {
    t.written <= after.written && (after.written == t.written && after.outcomes == [] ==> after.timer == t.timer)
  }

  lemma SendBodyWrites(m: Mail, t: Talk, c: Choice)
    requires t.bodySent <= |m.body|
    ensures WritesOrWaits(t, SendBody(m, t, c))
  {
  }

  lemma ReactWrites(m: Mail, t: Talk, c: Choice)
    requires Sendable(m) && t.bodySent <= |m.body| && t.outcomes == []
    ensures WritesOrWaits(t, React(m, t, c))
  {
    hide Respond, SendBody, Code, Accepts;
    if t.p.Some? {
      var p := t.p.value;
      var a := Respond(m, t, Code(p), p);
      if a.Some? {
        RespondMoves(m, t, Code(p), p);
        var t1 := t.(state := a.value.state, path := a.value.path, timer := SMTP_TIMEOUT, p := None,
                     heard := t.heard + [Reply(p)], written := t.written + a.value.text);
        SendBodyWrites(m, t1, c);
        assert t.written < t1.written;
      }
    }
  }

  // ----- No run hangs -----

  /** How long the longest of the legal dialogues is. */
  ghost function Longest(m: Mail): nat
    requires Sendable(m)
  {
    Max(|Dialogue(m, Direct)|, Max(|Dialogue(m, PlainAuth)|, |Dialogue(m, LoginAuth)|))
  }

  function Max(a: nat, b: nat): nat {
    if a < b then b else a
  }

  /** How many polls a session can still see: its timer, and a full one for every character not yet
      written. */
  ghost function Credit(m: Mail, t: Talk): int
    requires Sendable(m)
  {
    SMTP_TIMEOUT_DATATERM * (Longest(m) - |t.written|) + t.timer
  }

  function Polls(events: seq<(Event, Choice)>): nat {
    if events == [] then 0
    else Polls(events[..|events| - 1]) + if events[|events| - 1].0.Poll? then 1 else 0
  }

  lemma WrittenIsBounded(m: Mail, t: Talk)
    requires Sendable(m) && Legal(m, t)
    ensures |t.written| <= Longest(m)
  {
    hide Dialogue, Said;
    SaidIsPrefix(m, t.path, t.state, t.bodySent);
  }

  lemma TimersAreBounded(m: Mail, t: Talk, e: Event, c: Choice)
    requires Sendable(m) && t.bodySent <= |m.body| && t.timer <= SMTP_TIMEOUT_DATATERM
    ensures Step(m, t, e, c).timer <= SMTP_TIMEOUT_DATATERM
  {
    hide Respond, Code, Accepts;
  }

  /** A session that goes on after a callback has written something or has kept its timer, and after
      a poll it has a poll less before it. */
  lemma StepSpends(m: Mail, t: Talk, e: Event, c: Choice)
    requires Sendable(m) && Legal(m, t) && t.outcomes == [] && t.timer <= SMTP_TIMEOUT_DATATERM && c.closed
    requires Step(m, t, e, c).outcomes == []
    ensures Credit(m, Step(m, t, e, c)) + (if e.Poll? then 1 else 0) <= Credit(m, t)
  {
    hide Legal, React, SendBody;
    LegalBody(m, t);
    TimersAreBounded(m, t, e, c);
    if e == Poll {
      PollsRunDown(m, t, c);
    } else {
      ReactWrites(m, Arriving(t, e), c);
      SendBodyWrites(m, t, c);
    }
  }

  lemma {:induction false} RunSpends(m: Mail, events: seq<(Event, Choice)>)
    requires Sendable(m) && Run(m, events).Some? && forall k :: 0 <= k < |events| ==> events[k].1.closed
    ensures var t := Run(m, events).value;
            t.outcomes == [] ==>
              t.timer <= SMTP_TIMEOUT_DATATERM
                && Polls(events) + Credit(m, t) <= SMTP_TIMEOUT_DATATERM * Longest(m) + SMTP_TIMEOUT
    decreases |events|
  {
    hide Step, Legal, Manageable, Longest;
    if events != [] {
      var last := |events| - 1;
      var before := Run(m, events[..last]).value;
      RunSpends(m, events[..last]);
      RunIsLegal(m, events[..last]);
      LegalBody(m, before);
      OverStays(m, before, events[last].0, events[last].1);
      if Run(m, events).value.outcomes == [] {
        TimersAreBounded(m, before, events[last].0, events[last].1);
        StepSpends(m, before, events[last].0, events[last].1);
      }
    }
  }

  /** A session cannot hang: if the stack can close connections, a run with more polls than the timers
      of the longest dialogue allow has called the result callback. */
  lemma EveryRunEnds(m: Mail, events: seq<(Event, Choice)>)
    requires Sendable(m) && Run(m, events).Some? && forall k :: 0 <= k < |events| ==> events[k].1.closed
    requires Polls(events) > SMTP_TIMEOUT_DATATERM * Longest(m) + SMTP_TIMEOUT
    ensures |Run(m, events).value.outcomes| == 1
  {
    hide Longest, Legal;
    RunSpends(m, events);
    RunIsLegal(m, events);
    WrittenIsBounded(m, Run(m, events).value);
    Safety(m, events);
  }

  /** The received text of a run is what was taken, thrown away and is pending, in that order,
      and what comes after the end. */
  lemma {:induction false} NothingHeardTwice(m: Mail, events: seq<(Event, Choice)>)
    requires Sendable(m) && Run(m, events).Some?
    ensures Received(Run(m, events).value) <= Arrived(events)
    ensures Run(m, events).value.outcomes == [] ==> Received(Run(m, events).value) == Arrived(events)
    decreases |events|
  {
    hide Step, Received, Manageable;
    if events == [] {
      assert Received(START) == "" by { NothingHeard(); }
    } else {
      var last := |events| - 1;
      NothingHeardTwice(m, events[..last]);
      StepKeepsReceived(m, Run(m, events[..last]).value, events[last].0, events[last].1);
      OverStays(m, Run(m, events[..last]).value, events[last].0, events[last].1);
    }
  }

  lemma NothingHeard()
    ensures Received(START) == ""
  {
  }

  lemma OverStays(m: Mail, t: Talk, e: Event, c: Choice)
    requires Sendable(m) && t.bodySent <= |m.body|
    ensures t.outcomes != [] ==> Step(m, t, e, c) == t
  {
  }

  function Arrived(events: seq<(Event, Choice)>): string {
    if events == [] then ""
    else
      var last := events[|events| - 1].0;
      Arrived(events[..|events| - 1]) + if last.Recv? then last.data else ""
  }

  // ----- Replies in pieces -----

  /** The session after receiving the pieces one by one. */
  ghost function RecvAll(m: Mail, t: Talk, pieces: seq<string>, c: Choice): (after: Talk)
    requires Sendable(m) && t.bodySent <= |m.body|
    ensures after.bodySent <= |m.body|
    decreases |pieces|
  {
    if pieces == [] then t
    else
      StepKeepsBody(m, t, Recv(pieces[0]), c);
      RecvAll(m, Step(m, t, Recv(pieces[0]), c), pieces[1..], c)
  }

  /** A reply cut into pieces does what it does in one piece, if the code is in the first. Of codes
      below 100 this is said as far as a pbuf holds the reply. */
  lemma {:induction false} CutAnywhere(m: Mail, t: Talk, pieces: seq<string>, lines: seq<string>, c: Choice)
    requires Sendable(m) && t.bodySent <= |m.body| && t.outcomes == []
    requires IsReply(lines) && Pending(t) + Flat(pieces) == Flat(lines) && Code(Flat(lines)) != 0
    requires Code(Flat(lines)) >= 100 || |Flat(lines)| < U16
    requires pieces != [] && |pieces[|pieces| - 1]| > 0 && |Pending(t) + pieces[0]| >= 3
    ensures RecvAll(m, t, pieces, c) == Step(m, t, Recv(Flat(pieces)), c)
    decreases |pieces|
  {
    hide IsReply, Code, Accepts, Respond;
    var first := pieces[0];
    if |pieces| == 1 {
      FlatOne(first);
      assert pieces == [first];
      assert RecvAll(m, Step(m, t, Recv(first), c), pieces[1..], c) == Step(m, t, Recv(first), c);
    } else {
      var part := Pending(t) + first;
      FlatNonempty(pieces[1..]);
      assert Flat(lines) == part + Flat(pieces[1..]);
      PartIsNotAccepted(lines, part);
      assert Code(part) == Code(Flat(lines)) by { CodeOfPart(part, Flat(pieces[1..])); }
      var t1 := Step(m, t, Recv(first), c);
      assert t1 == t.(p := Some(part));
      CutAnywhere(m, t1, pieces[1..], lines, c);
      assert part + Flat(pieces[1..]) == Pending(t) + Flat(pieces);
    }
  }

  lemma {:induction false} FlatNonempty(pieces: seq<string>)
    requires pieces != [] && |pieces[|pieces| - 1]| > 0
    ensures |Flat(pieces)| > 0
  {
    if |pieces| > 1 {
      FlatNonempty(pieces[1..]);
    }
  }

  /** Between the pieces the sent callback changes nothing, outside the body. */
  lemma SentBetween(m: Mail, t: Talk, lines: seq<string>, c: Choice)
    requires Sendable(m) && t.bodySent <= |m.body| && t.outcomes == [] && t.state != Body && t.timer != 0
    requires t.p.Some? && |t.p.value| >= 3 && IsReply(lines) && t.p.value < Flat(lines) && Code(Flat(lines)) != 0
    requires Code(Flat(lines)) >= 100 || |Flat(lines)| < U16
    ensures Step(m, t, Sent, c) == t
  {
    hide IsReply, Code, Accepts, Respond;
    var part := t.p.value;
    PartIsNotAccepted(lines, part);
    assert Flat(lines) == part + Flat(lines)[|part|..];
    CodeOfPart(part, Flat(lines)[|part|..]);
  }
}
