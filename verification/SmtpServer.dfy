/** The other end of the SMTP connection: what a server that follows RFC 5321 and RFC 4954 makes of the
    characters the client has written. */
module SmtpServer {
  import opened Base64
  import opened Common
  import opened SmtpData
  import opened SmtpDialogue
  import opened SmtpText

  /** What AUTH has told the server, each argument decoded. */
  datatype Login =
    | Anonymous
    | Plain(message: Option<string>)
    | UserAndPassword(user: Option<string>, password: Option<string>)

  datatype Session = Session(client: string, login: Login, sender: Option<string>, recipients: seq<string>)

  /** A session up to DATA, and what follows. */
  datatype Envelope = Envelope(session: Session, data: string)

  datatype Command = Command(line: string, rest: string)

  /** The text up to the first CRLF, and what follows. */
  function NextLine(stream: string): (c: Option<Command>)
    ensures c.Some? ==> |c.value.rest| < |stream|
  {
    match Find(stream, CRLF, 0)
    case None => None
    case Some(end) => Some(Command(stream[..end], stream[end + 2..]))
  }

  /** The text between the angle brackets, leading spaces put up with. */
  function MailPath(argument: string): Option<string> {
    if argument == "" then None
    else if argument[0] == ' ' then MailPath(argument[1..])
    else if |argument| >= 2 && argument[0] == '<' && argument[|argument| - 1] == '>' then
      Some(argument[1..|argument| - 1])
    else None
  }

  datatype Verb = Ehlo | AuthPlain | AuthLogin | Mail | Rcpt | Data | Unknown

  function VerbOf(line: string): Verb {
    if "EHLO " <= line then Verb.Ehlo
    else if "AUTH PLAIN " <= line then Verb.AuthPlain
    else if line == "AUTH LOGIN" then Verb.AuthLogin
    else if "MAIL FROM:" <= line then Verb.Mail
    else if "RCPT TO:" <= line then Verb.Rcpt
    else if line == "DATA" then Verb.Data
    else Unknown
  }

  /** What follows the verb. */
  function Argument(line: string, verb: string): string {
    if verb <= line then line[|verb|..] else ""
  }

  /** Command by command up to DATA; `None` on anything else or on an unfinished line. */
  function Listen(stream: string, s: Session): Option<Envelope>
    decreases |stream|
  {
    match NextLine(stream)
    case None => None
    case Some(Command(line, rest)) =>
      match VerbOf(line)
      case Ehlo => Listen(rest, s.(client := Argument(line, "EHLO ")))
      case AuthPlain => Listen(rest, s.(login := Plain(Decode(Argument(line, "AUTH PLAIN ")))))
      case AuthLogin =>
        (match NextLine(rest)
         case None => None
         case Some(user) =>
           match NextLine(user.rest)
           case None => None
           case Some(password) =>
             Listen(password.rest, s.(login := UserAndPassword(Decode(user.line), Decode(password.line)))))
      case Mail => Listen(rest, s.(sender := MailPath(Argument(line, "MAIL FROM:"))))
      case Rcpt =>
        (match MailPath(Argument(line, "RCPT TO:"))
         case None => None
         case Some(path) => Listen(rest, s.(recipients := s.recipients + [path])))
      case Data => Some(Envelope(s, rest))
      case Unknown => None
  }

  const NEW := Session("", Anonymous, None, [])

  lemma LineRead(line: string, rest: string)
    requires '\r' !in line
    ensures NextLine(line + CRLF + rest) == Some(Command(line, rest))
  {
    var stream := line + CRLF + rest;
    LineEnds(line, rest, 0);
    assert stream[..|line|] == line && stream[|line| + 2..] == rest;
  }

  // ----- One command at a time -----

  lemma HearEhlo(address: string, rest: string, s: Session)
    requires '\r' !in address
    ensures Listen("EHLO [" + address + "]\r\n" + rest, s) == Listen(rest, s.(client := "[" + address + "]"))
  {
    hide NextLine;
    var line := "EHLO [" + address + "]";
    LineRead(line, rest);
    assert "EHLO [" + address + "]\r\n" + rest == line + CRLF + rest;
    assert line == "EHLO " + ("[" + address + "]");
  }

  lemma PlainIs(argument: string)
    ensures VerbOf("AUTH PLAIN " + argument) == Verb.AuthPlain
    ensures Argument("AUTH PLAIN " + argument, "AUTH PLAIN ") == argument
  {
    assert ("AUTH PLAIN " + argument)[0] == 'A';
  }

  lemma HearPlain(data: string, rest: string, s: Session)
    requires Bytes(data)
    ensures Listen("AUTH PLAIN " + Encoded(data) + CRLF + rest, s) ==
            Listen(rest, s.(login := Plain(if |data| % 3 != 0 then Some(data) else None)))
  {
    hide NextLine, VerbOf, Argument, Encoded, Decode, Bytes;
    EncodedIsPlain(data);
    DecodeEncoded(data);
    PlainIs(Encoded(data));
    LineRead("AUTH PLAIN " + Encoded(data), rest);
  }

  lemma HearLogin(user: string, password: string, rest: string, s: Session)
    requires Bytes(user) && Bytes(password)
    ensures Listen("AUTH LOGIN\r\n" + (Encoded(user) + CRLF + (Encoded(password) + CRLF + rest)), s) ==
            Listen(rest, s.(login := UserAndPassword(if |user| % 3 != 0 then Some(user) else None,
                                                     if |password| % 3 != 0 then Some(password) else None)))
  {
    hide NextLine, VerbOf, Encoded, Decode, Bytes;
    var afterUser := Encoded(password) + CRLF + rest;
    var afterAuth := Encoded(user) + CRLF + afterUser;
    EncodedIsPlain(user);
    EncodedIsPlain(password);
    DecodeEncoded(user);
    DecodeEncoded(password);
    LineRead(Encoded(password), rest);
    LineRead(Encoded(user), afterUser);
    LoginIs();
    LineRead("AUTH LOGIN", afterAuth);
    assert "AUTH LOGIN\r\n" + afterAuth == "AUTH LOGIN" + CRLF + afterAuth;
  }

  lemma LoginIs()
    ensures VerbOf("AUTH LOGIN") == Verb.AuthLogin
  {
    assert "AUTH LOGIN"[0] == 'A' && "AUTH LOGIN"[5] == 'L';
  }

  lemma PathRead(path: string)
    ensures MailPath(" <" + path + ">") == Some(path)
  {
    var argument := " <" + path + ">";
    assert argument[1..] == "<" + path + ">";
    assert argument[1..][1..|argument| - 2] == path;
  }

  lemma MailIs(argument: string)
    ensures VerbOf("MAIL FROM:" + argument) == Verb.Mail
    ensures Argument("MAIL FROM:" + argument, "MAIL FROM:") == argument
  {
    assert ("MAIL FROM:" + argument)[0] == 'M';
  }

  lemma HearMail(sender: string, rest: string, s: Session)
    requires SmtpData.Plain(sender)
    ensures Listen("MAIL FROM: <" + sender + ">\r\n" + rest, s) == Listen(rest, s.(sender := Some(sender)))
  {
    hide NextLine, VerbOf, Argument, MailPath;
    var line := "MAIL FROM:" + (" <" + sender + ">");
    MailIs(" <" + sender + ">");
    PathRead(sender);
    LineRead(line, rest);
    assert "MAIL FROM: <" + sender + ">\r\n" + rest == line + CRLF + rest;
  }

  lemma RcptIs(argument: string)
    ensures VerbOf("RCPT TO:" + argument) == Verb.Rcpt && Argument("RCPT TO:" + argument, "RCPT TO:") == argument
  {
    assert ("RCPT TO:" + argument)[0] == 'R';
  }

  lemma HearRcpt(recipient: string, rest: string, s: Session)
    requires SmtpData.Plain(recipient)
    ensures Listen("RCPT TO: <" + recipient + ">\r\n" + rest, s) ==
            Listen(rest, s.(recipients := s.recipients + [recipient]))
  {
    hide NextLine, VerbOf, Argument, MailPath;
    var line := "RCPT TO:" + (" <" + recipient + ">");
    RcptIs(" <" + recipient + ">");
    PathRead(recipient);
    LineRead(line, rest);
    assert "RCPT TO: <" + recipient + ">\r\n" + rest == line + CRLF + rest;
  }

  lemma DataIs()
    ensures VerbOf("DATA") == Verb.Data
  {
    assert "DATA"[0] == 'D';
  }

  lemma HearData(rest: string, s: Session)
    ensures Listen("DATA\r\n" + rest, s) == Some(Envelope(s, rest))
  {
    hide NextLine, VerbOf;
    DataIs();
    LineRead("DATA", rest);
    assert "DATA\r\n" + rest == "DATA" + CRLF + rest;
  }

  // ----- The whole session -----

  /** What the server knows of the login; a Base64 argument of whole groups cannot be decoded. */
  function LoginHeard(m: Mail, path: Path): Login {
    match path
    case Direct => Anonymous
    case PlainAuth =>
      var message := "\0" + m.username + "\0" + m.password;
      Plain(if |message| % 3 != 0 then Some(message) else None)
    case LoginAuth =>
      UserAndPassword(if |m.username| % 3 != 0 then Some(m.username) else None,
                      if |m.password| % 3 != 0 then Some(m.password) else None)
  }

  lemma EnvelopeHeard(m: Mail, path: Path, rest: string)
    requires Sendable(m) && '\r' !in m.address
    ensures Listen(SmtpDialogue.Envelope(m, path) + rest, NEW) ==
            Some(Envelope(Session("[" + m.address + "]", LoginHeard(m, path), Some(m.sender), [m.recipient]), rest))
  {
    hide Listen, Encoded, Bytes, LoginHeard, Prologue, SmtpDialogue.Envelope;
    var data := "DATA\r\n" + rest;
    var rcpt := "RCPT TO: <" + m.recipient + ">\r\n" + data;
    var mail := "MAIL FROM: <" + m.sender + ">\r\n" + rcpt;
    var hello := NEW.(client := "[" + m.address + "]");
    var known := hello.(login := LoginHeard(m, path));
    HearMail(m.sender, rcpt, known);
    HearRcpt(m.recipient, data, known.(sender := Some(m.sender)));
    assert known.recipients + [m.recipient] == [m.recipient];
    HearData(rest, known.(sender := Some(m.sender), recipients := [m.recipient]));
    EnvelopeIs(m, path, rest);
    PrologueHeard(m, path, mail);
  }

  lemma EnvelopeIs(m: Mail, path: Path, rest: string)
    requires Sendable(m)
    ensures SmtpDialogue.Envelope(m, path) + rest ==
            Prologue(m, path) +
            ("MAIL FROM: <" + m.sender + ">\r\n" + ("RCPT TO: <" + m.recipient + ">\r\n" + ("DATA\r\n" + rest)))
  {
    hide Prologue, Sendable;
    var rcpt := "RCPT TO: <" + m.recipient + ">\r\n" + ("DATA\r\n" + rest);
    assert Prologue(m, path) + MailLine(m) + RcptLine(m) + DATA + rest == Prologue(m, path) + (MailLine(m) + rcpt);
  }

  lemma PrologueHeard(m: Mail, path: Path, rest: string)
    requires Sendable(m) && '\r' !in m.address
    ensures Listen(Prologue(m, path) + rest, NEW) ==
            Listen(rest, NEW.(client := "[" + m.address + "]", login := LoginHeard(m, path)))
  {
    hide Listen, Encoded, Bytes;
    var hello := NEW.(client := "[" + m.address + "]");
    match path
    case Direct =>
      HearEhlo(m.address, rest, NEW);
    case PlainAuth =>
      var auth := "AUTH PLAIN " + Encoded(PlainData(m)) + CRLF + rest;
      HearEhlo(m.address, auth, NEW);
      HearPlain(PlainData(m), rest, hello);
      assert Prologue(m, path) + rest == "EHLO [" + m.address + "]\r\n" + auth;
    case LoginAuth =>
      var lines := Encoded(m.username) + CRLF + (Encoded(m.password) + CRLF + rest);
      HearEhlo(m.address, "AUTH LOGIN\r\n" + lines, NEW);
      HearLogin(m.username, m.password, rest, hello);
      LoginSaid(m, rest);
  }

  lemma LoginSaid(m: Mail, rest: string)
    requires Sendable(m)
    ensures Prologue(m, LoginAuth) + rest ==
            "EHLO [" + m.address + "]\r\n" +
            ("AUTH LOGIN\r\n" + (Encoded(m.username) + CRLF + (Encoded(m.password) + CRLF + rest)))
  {
    hide Encoded, Bytes;
  }

  /** After a run that reports success the server has been told the client's address, the sender and the
      one recipient, the login if there was one, and the mail with its From, To and Subject lines; it reads
      QUIT next. The mail is as it was written unless the body begins with a dot, and a login arrives unless
      its length is a multiple of three. The address is the text of an IP address. */
  lemma ServerUnderstands(m: Mail, events: seq<(Event, Choice)>)
    requires Sendable(m) && '\r' !in m.address && Run(m, events).Some?
    requires Run(m, events).value.outcomes != [] && Run(m, events).value.outcomes[0].result == Ok
    ensures var t := Run(m, events).value;
            && Listen(t.written, NEW).Some?
            && var e := Listen(t.written, NEW).value;
            && e.session.client == "[" + m.address + "]"
            && e.session.sender == Some(m.sender) && e.session.recipients == [m.recipient]
            && e.session.login == LoginHeard(m, t.path)
            && (Receive(e.data) ==
                  Some(Delivery("From: <" + m.sender + ">\r\n" + "To: <" + m.recipient + ">\r\n"
                                + "Subject: " + m.subject + "\r\n" + "\r\n" + m.body + "\r\n", "QUIT\r\n"))
                <==> !(m.body != "" && m.body[0] == '.'))
  {
    hide SmtpDialogue.Envelope, DataStream, Header, Receive, Run, Listen, LoginHeard, Sendable;
    var t := Run(m, events).value;
    MailArrives(m, events);
    var envelope := SmtpDialogue.Envelope(m, t.path);
    var data := t.written[|envelope|..];
    assert t.written == envelope + data;
    EnvelopeHeard(m, t.path, data);
    HeaderIs(m);
  }

  lemma HeaderIs(m: Mail)
    ensures Header(m.sender, m.recipient, m.subject) + m.body + CRLF ==
            "From: <" + m.sender + ">\r\n" + "To: <" + m.recipient + ">\r\n"
            + "Subject: " + m.subject + "\r\n" + "\r\n" + m.body + "\r\n"
  {
  }
}
