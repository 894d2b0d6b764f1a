/** The SMTP client as it runs: a session updated by callbacks, commands put together in a transmit
    buffer. Every callback does what SmtpDialogue says of it. */
module SmtpClient {
  import opened Base64
  import opened Common
  import opened SmtpData
  import opened SmtpReply
  import opened SmtpText
  import opened Tcp
  import D = SmtpDialogue

  class Session {
    const mail: D.Mail
    const pcb: Pcb
    const txBuf: array<char>
    var state: D.State
    var timer: nat
    var p: Option<string>
    var bodySent: nat
    // the calls of the result callback; the session is freed with the first
    var outcomes: seq<D.Outcome>
    ghost var path: D.Path
    ghost var heard: seq<D.Piece>

    constructor (mail: D.Mail, pcb: Pcb)
      requires D.Sendable(mail) && pcb.written == ""
      ensures Ready() && Value() == D.START && this.mail == mail && this.pcb == pcb && fresh(txBuf)
    {
      this.mail, this.pcb := mail, pcb;
      txBuf := new char[D.SMTP_TX_BUF_LEN + 1];
      state, timer, p, bodySent, outcomes := D.Null, D.SMTP_TIMEOUT, None, 0, [];
      path, heard := D.Direct, [];
    }

    ghost predicate Ready()
      reads this
    {
      D.Sendable(mail) && txBuf.Length == D.SMTP_TX_BUF_LEN + 1 && bodySent <= |mail.body|
    }

    /** The pending text is one the code handles. */
    ghost predicate Manages()
      reads this, pcb`written
    {
      D.Manageable(Value())
    }

    ghost function Value(): D.Talk
      reads this, pcb`written
    {
      D.Talk(state, timer, p, bodySent, path, pcb.written, heard, outcomes)
    }

    // ----- The transmit buffer -----

    /** The buffer starts with `text`, `len` characters long. */
    ghost predicate Filled(len: nat, text: string)
      reads txBuf
    {
      len == |text| <= txBuf.Length && txBuf[..len] == text
    }

    /** memcpy into the buffer at `at`; returns the place after it. */
    method Put(at: nat, text: string, ghost before: string) returns (end: nat)
      requires Filled(at, before) && at + |text| <= txBuf.Length
      modifies txBuf
      ensures Filled(end, before + text)
    {
      end := at + |text|;
      for i := 0 to |text|
        invariant txBuf[..at + i] == before + text[..i]
      {
        txBuf[at + i] := text[i];
      }
    }

    method Terminate(len: nat)
      requires len < txBuf.Length
      modifies txBuf
      ensures txBuf[len] == '\0' && txBuf[..len] == old(txBuf[..len])
    {
      txBuf[len] := '\0';
    }

    method PrepareHelo() returns (next: D.State, len: nat)
      requires Ready()
      modifies txBuf
      ensures next == D.Helo && Filled(len, D.Ehlo(mail))
    {
      len := Put(0, "EHLO [", "");
      len := Put(len, mail.address, "EHLO [");
      len := Put(len, "]\r\n", "EHLO [" + mail.address);
      next := D.Helo;
    }

    method PrepareMail() returns (next: D.State, len: nat)
      requires Ready()
      modifies txBuf
      ensures next == D.MailFrom && Filled(len, D.MailLine(mail))
    {
      Terminate(12 + 3 + |mail.sender|);
      len := Put(0, "MAIL FROM: <", "");
      len := Put(len, mail.sender, "MAIL FROM: <");
      len := Put(len, ">\r\n", "MAIL FROM: <" + mail.sender);
      next := D.MailFrom;
    }

    method PrepareRcpt() returns (next: D.State, len: nat)
      requires Ready()
      modifies txBuf
      ensures next == D.Rcpt && Filled(len, D.RcptLine(mail))
    {
      Terminate(10 + 3 + |mail.recipient|);
      len := Put(0, "RCPT TO: <", "");
      len := Put(len, mail.recipient, "RCPT TO: <");
      len := Put(len, ">\r\n", "RCPT TO: <" + mail.recipient);
      next := D.Rcpt;
    }

    method PrepareHeader() returns (next: D.State, len: nat)
      requires Ready()
      modifies txBuf
      ensures next == D.Body && Filled(len, Header(mail.sender, mail.recipient, mail.subject))
    {
      Terminate(7 + 8 + 12 + 4 + |mail.sender| + |mail.recipient| + |mail.subject|);
      ghost var toSender := HEADER_1 + mail.sender;
      ghost var toRecipient := toSender + HEADER_2 + mail.recipient;
      len := PutTwo(0, HEADER_1, mail.sender, "");
      len := PutTwo(len, HEADER_2, mail.recipient, toSender);
      len := PutTwo(len, HEADER_3, mail.subject, toRecipient);
      len := Put(len, HEADER_4, toRecipient + HEADER_3 + mail.subject);
      next := D.Body;
    }

    method PutTwo(at: nat, text: string, more: string, ghost before: string) returns (end: nat)
      requires Filled(at, before) && at + |text| + |more| <= txBuf.Length
      modifies txBuf
      ensures Filled(end, before + text + more)
    {
      end := Put(at, text, before);
      end := Put(end, more, before + text);
    }

    method PrepareQuit() returns (next: D.State, len: nat)
      requires Ready()
      modifies txBuf
      ensures next == D.Closed && Filled(len, D.QUIT)
    {
      Terminate(6);
      len := Put(0, D.QUIT, "");
      next := D.Closed;
    }

    /** A line of Base64, for the login name and the password. */
    method PutBase64Line(text: string) returns (len: nat)
      requires Ready() && Bytes(text) && EncodedLength(|text|) + 2 <= D.SMTP_TX_BUF_LEN
      modifies txBuf
      ensures Filled(len, D.Base64Line(text))
    {
      hide Encoded;
      len := Base64Encode(txBuf, 0, text);
      assert txBuf[..len] == Encoded(text) by { assert txBuf[0..0 + len] == txBuf[..len]; }
      len := Put(len, CRLF, Encoded(text));
      Terminate(len);
    }

    method PutAuthPlain() returns (len: nat)
      requires Ready()
      modifies txBuf
      ensures Filled(len, D.AuthPlainLine(mail))
    {
      hide Encoded, Bytes;
      var k := Put(0, "AUTH PLAIN ", "");
      len := Base64Encode(txBuf, k, D.PlainData(mail));
      assert txBuf[..k + len] == txBuf[..k] + txBuf[k..k + len];
      len := Put(k + len, CRLF, "AUTH PLAIN " + Encoded(D.PlainData(mail)));
    }

    /** smtp_prepare_auth_or_mail. `inside` tells whether the copy of the offer and its NUL stay inside
        the transmit buffer; the code does not ask, and beyond it the model ends. */
    method PrepareAuthOrMail(reply: string) returns (next: D.State, len: nat, inside: bool)
      requires Ready()
      modifies txBuf
      ensures inside <==> D.OfferFits(reply)
      ensures inside ==> next == D.AuthOrMail(mail, reply).state && Filled(len, D.AuthOrMail(mail, reply).text)
    {
      hide Encoded, Find, D.Offer, Filled;
      inside := true;
      var auth := Find(reply, "AUTH ", 0);
      if auth == None {
        auth := Find(reply, "AUTH=", 0);
      }
      if auth != None {
        var crlf := Find(reply, CRLF, auth.value);
        if crlf != None && crlf.value > auth.value {
          D.KeywordFirst(reply, auth.value, crlf.value);
          if crlf.value - auth.value + 1 > txBuf.Length {
            return state, 0, false;
          }
          var sep := CopyOffer(reply[auth.value..crlf.value]);
          if Find(sep, "PLAIN", 0) != None {
            len := PutAuthPlain();
            return D.AuthPlain, len, true;
          } else if Find(sep, "LOGIN", 0) != None {
            len := PutAuthLogin();
            return D.AuthLoginUname, len, true;
          }
        }
      }
      next, len := PrepareMail();
    }

    /** The line passes through the buffer, and what follows the keyword is a C string there. */
    method CopyOffer(line: string) returns (sep: string)
      requires Ready() && 5 <= |line| <= D.SMTP_TX_BUF_LEN
      modifies txBuf
      ensures sep == D.Offer(line)
    {
      hide CString;
      var copied := Put(0, line, "");
      Terminate(copied);
      assert "" + line == line;
      SepIsOffer(line);
      sep := CString(txBuf[5..]);
    }

    method PutAuthLogin() returns (len: nat)
      requires Ready()
      modifies txBuf
      ensures Filled(len, D.AUTH_LOGIN)
    {
      len := Put(0, D.AUTH_LOGIN, "");
    }

    lemma SepIsOffer(line: string)
      requires 5 <= |line| < txBuf.Length && txBuf[..|line|] == line && txBuf[|line|] == '\0'
      ensures CString(txBuf[5..]) == D.Offer(line)
    {
      CStringOf(line[5..], txBuf[|line|..]);
      assert txBuf[5..] == line[5..] + txBuf[|line|..];
    }

    static lemma {:induction false} CStringOf(s: string, rest: string)
      requires rest != "" && rest[0] == '\0'
      ensures CString(s + rest) == CString(s)
    {
      if s == "" {
        assert s + rest == rest;
      } else {
        CStringOf(s[1..], rest);
        assert (s + rest)[1..] == s[1..] + rest;
      }
    }

    // ----- What the callbacks are made of -----

    /** smtp_free. */
    method Free(result: D.Result, srvErr: nat)
      modifies this`outcomes
      ensures Value() == D.Free(old(Value()), result, srvErr)
    {
      outcomes := outcomes + [D.Outcome(result, srvErr)];
    }

    /** smtp_close. */
    method Close(result: D.Result, srvErr: nat) returns (ghost c: D.Choice)
      modifies this`outcomes
      ensures Value() == D.Close(old(Value()), c, result, srvErr)
    {
      var err := pcb.Close();
      c := D.Choice(err == ErrOk, false, 0, false, false);
      if err == ErrOk {
        Free(result, srvErr);
      }
    }

    /** smtp_send_body. */
    method SendBody() returns (ghost c: D.Choice)
      requires Ready()
      modifies this`timer, this`bodySent, this`state, pcb
      ensures Ready() && p == old(p) && (old(state) == D.Helo <==> state == D.Helo)
      ensures Value() == D.SendBody(mail, old(Value()), c)
    {
      hide D.SendPart, D.SendEnd;
      c := D.Choice(false, false, 0, false, false);
      if state == D.Body {
        c := SendPart();
        var end := SendEnd(c);
        D.SendPartAnyEnd(mail, old(Value()), c, end);
        c := c.(end := end);
      }
    }

    /** As much of the body as the window allows. */
    method SendPart() returns (ghost c: D.Choice)
      requires Ready()
      modifies this`timer, this`bodySent, pcb
      ensures Ready() && Value() == D.SendPart(mail, old(Value()), c)
    {
      ghost var space, body := 0, false;
      var sendLen := |mail.body| - bodySent;
      if sendLen > 0 {
        var sndBuf := pcb.SndBuf();
        space := sndBuf;
        if sendLen > sndBuf {
          sendLen := sndBuf;
        }
        if sendLen > 0 {
          var err := pcb.Write(mail.body[bodySent..bodySent + sendLen]);
          if err == ErrOk {
            body := true;
            timer := D.SMTP_TIMEOUT_DATABLOCK;
            bodySent := bodySent + sendLen;
          }
        }
      }
      c := D.Choice(false, false, space, body, false);
    }

    /** The end of the body, once all of it has been taken. */
    method SendEnd(ghost c: D.Choice) returns (end: bool)
      requires Ready()
      modifies this`timer, this`state, pcb
      ensures Value() == D.SendEnd(mail, old(Value()), c.(end := end)) && (state == old(state) || state == D.Quit)
    {
      end := false;
      if bodySent == |mail.body| {
        var err := pcb.Write(BODY_FINISHED);
        if err == ErrOk {
          end := true;
          timer := D.SMTP_TIMEOUT_DATATERM;
          state := D.Quit;
        }
      }
    }

    /** The switch of smtp_process: the command for the reply, and the state it leads to. */
    method Respond(code: nat) returns (next: D.State, len: nat, inside: bool)
      requires Ready() && p.Some?
      modifies txBuf
      ensures inside <==> (state == D.Helo && code == 250 ==> D.OfferFits(p.value))
      ensures inside ==>
                match D.Respond(mail, old(Value()), code, p.value)
                case None => next == state
                case Some(a) => next == a.state && Filled(len, a.text)
    {
      hide Filled, D.AuthOrMail, D.Base64Line, Find, Header;
      var reply := p.value;
      next, len, inside := state, 0, true;
      match state
      case Null =>
        if code == 220 {
          next, len := PrepareHelo();
        }
      case Helo =>
        if code == 250 {
          next, len, inside := PrepareAuthOrMail(reply);
        }
      case AuthLogin =>
        if code == 235 {
          next, len := PrepareMail();
        }
      case AuthPlain =>
        if code == 235 {
          next, len := PrepareMail();
        }
      case AuthLoginUname =>
        if code == 334 {
          if Find(reply, D.SMTP_RESP_LOGIN_UNAME, 0) != None {
            len := PutBase64Line(mail.username);
            next := D.AuthLoginPass;
          }
        }
      case AuthLoginPass =>
        if code == 334 {
          if Find(reply, D.SMTP_RESP_LOGIN_PASS, 0) != None {
            len := PutBase64Line(mail.password);
            next := D.AuthLogin;
          }
        }
      case MailFrom =>
        if code == 250 {
          next, len := PrepareRcpt();
        }
      case Rcpt =>
        if code == 250 {
          len := PutData();
          next := D.Data;
        }
      case Data =>
        if code == 354 {
          next, len := PrepareHeader();
        }
      case Body =>
      case Quit =>
        if code == 250 {
          next, len := PrepareQuit();
        }
      case Closed =>
    }

    method PutData() returns (len: nat)
      requires Ready()
      modifies txBuf
      ensures Filled(len, D.DATA)
    {
      len := Put(0, D.DATA, "");
    }

    /** The rest of smtp_process: what the received text calls for. `defined` tells whether the code can
        handle that text; it does not ask, and otherwise the model ends before anything is written. */
    method React() returns (ghost c: D.Choice, defined: bool)
      requires Ready()
      modifies this, pcb, txBuf
      ensures Ready() && (defined <==> D.Manageable(old(Value())))
      ensures defined ==> Manages() && Value() == D.React(mail, old(Value()), c)
      ensures !defined ==> Value() == old(Value())
    {
      hide D.Respond, D.SendBody, Code, Finished, Accepts, Filled, D.OfferFits, WrapsTo;
      c, defined := D.Choice(false, false, 0, false, false), true;
      if p.Some? && |p.value| >= U16 {
        return c, false;
      }
      var code := if p == None then 0 else Code(p.value);
      if code != 0 {
        var finished;
        finished, defined := IsResponseFinished(p);
        if !defined || !finished {
          SettledOffer(p.value);
          return;
        }
      } else {
        if p.Some? {
          heard := heard + [D.Ignored(p.value)];
          p := None;
        }
        return;
      }
      if state == D.Closed {
        return;
      }
      ghost var a := D.Respond(mail, Value(), code, p.value);
      var next, len;
      next, len, defined := Respond(code);
      SettledOffer(p.value);
      if !defined {
        return;
      }
      if a.Some? {
        D.RespondMoves(mail, Value(), code, p.value);
      }
      if state == next {
        c := Close(D.ErrSvrResp, code);
        return;
      }
      if len > 0 {
        c := Command(next, len, a.value);
      }
    }

    /** The scanner is right about a reply with the code of an offer. */
    static lemma SettledOffer(text: string)
      ensures Code(text) == 250 ==> (Accepts(text) <==> Finished(text))
    {
      hide Code, Accepts, Finished;
      if Code(text) == 250 {
        CodeSettles(text);
      }
    }

    /** The command is offered to the stack; the session moves on if it is taken. */
    method Command(next: D.State, len: nat, ghost a: D.Answer) returns (ghost c: D.Choice)
      requires Ready() && p.Some? && next == a.state && Filled(len, a.text)
      modifies this, pcb
      ensures Ready() && (c.command ==> p == None)
      ensures Value() == if c.command then D.Advance(mail, old(Value()), c, a) else old(Value())
    {
      hide D.SendBody;
      c := D.Choice(false, false, 0, false, false);
      var err := pcb.Write(txBuf[..len]);
      if err == ErrOk {
        c := c.(command := true);
        timer := D.SMTP_TIMEOUT;
        heard := heard + [D.Reply(p.value)];
        p := None;
        state := next;
        path := a.path;
        if next == D.Body {
          ghost var t := Value();
          ghost var c1 := SendBody();
          D.SendBodyAnyCommand(mail, t, c1);
          c := c1.(command := true);
        } else if next == D.Closed {
          Free(D.Ok, 0);
        }
      }
    }

    // ----- The callbacks -----

    /** smtp_process without new data, for the poll and sent callbacks. */
    method Idle() returns (ghost c: D.Choice)
      requires Ready() && Manages()
      modifies this, pcb, txBuf
      ensures Ready() && Manages() && Value() == D.Idle(mail, old(Value()), c)
    {
      hide D.SendBody, D.React, D.Close;
      if timer == 0 {
        c := Close(D.ErrTimeout, 0);
        return;
      }
      if state == D.Body {
        c := SendBody();
        return;
      }
      var defined;
      c, defined := React();
    }

    /** smtp_tcp_poll. */
    method TcpPoll() returns (ghost c: D.Choice)
      requires Ready() && Manages()
      modifies this, pcb, txBuf
      ensures Ready() && Manages() && Value() == D.Step(mail, old(Value()), D.Poll, c)
    {
      hide D.Idle;
      c := D.Choice(false, false, 0, false, false);
      if outcomes == [] {
        if timer != 0 {
          timer := timer - 1;
        }
        c := Idle();
      }
    }

    /** smtp_tcp_sent. */
    method TcpSent() returns (ghost c: D.Choice)
      requires Ready() && Manages()
      modifies this, pcb, txBuf
      ensures Ready() && Manages() && Value() == D.Step(mail, old(Value()), D.Sent, c)
    {
      hide D.Idle;
      c := D.Choice(false, false, 0, false, false);
      if outcomes == [] {
        c := Idle();
      }
    }

    /** smtp_tcp_recv; `None` is the end of the connection. */
    method TcpRecv(data: Option<string>) returns (ghost c: D.Choice, defined: bool)
      requires Ready() && Manages()
      modifies this, pcb, txBuf
      ensures var e := if data.Some? then D.Recv(data.value) else D.RecvEnd;
              && Ready() && (defined <==> D.Manageable(D.Arriving(old(Value()), e)))
              && (defined ==> Manages() && Value() == D.Step(mail, old(Value()), e, c))
              && (!defined ==> Value() == D.Arriving(old(Value()), e))
    {
      hide D.React, D.Close, D.AuthLine;
      c, defined := D.Choice(false, false, 0, false, false), true;
      if data == None {
        if outcomes == [] {
          c := Close(D.ErrClosed, 0);
        } else {
          var err := pcb.Close();
        }
      } else if outcomes == [] {
        if p == None {
          assert "" + data.value == data.value;
          p := data;
        } else {
          p := Some(p.value + data.value);
        }
        c, defined := React();
      }
    }

    /** smtp_tcp_err. */
    method TcpErr() returns (ghost c: D.Choice)
      requires Ready() && Manages()
      modifies this`outcomes
      ensures Ready() && Manages() && Value() == D.Step(mail, old(Value()), D.Error, c)
    {
      c := D.Choice(false, false, 0, false, false);
      if outcomes == [] {
        Free(D.ErrClosed, 0);
      }
    }

    /** One callback. */
    method Callback(e: D.Event) returns (ghost c: D.Choice, defined: bool)
      requires Ready() && Manages()
      modifies this, pcb, txBuf
      ensures Ready() && (defined <==> D.Manageable(D.Arriving(old(Value()), e)))
      ensures defined ==> Manages() && Value() == D.Step(mail, old(Value()), e, c)
      ensures !defined ==> Value() == D.Arriving(old(Value()), e)
    {
      hide D.Step, D.Manageable;
      defined := true;
      match e
      case Recv(data) => c, defined := TcpRecv(Some(data));
      case RecvEnd => c, defined := TcpRecv(None);
      case Sent => c := TcpSent();
      case Poll => c := TcpPoll();
      case Error => c := TcpErr();
    }

    /** Any callbacks in any order, up to one that brings text the code cannot hold, if there is one:
        that text has joined what is pending, and nothing has been written since. What the connection
        has been given is part of one dialogue. */
    method Serve(events: seq<D.Event>) returns (ghost run: seq<(D.Event, D.Choice)>)
      requires Ready() && Value() == D.START
      modifies this, pcb, txBuf
      ensures Ready() && D.Run(mail, run).Some?
      ensures |run| <= |events| && forall k :: 0 <= k < |run| ==> run[k].0 == events[k]
      ensures |run| == |events| ==> D.Run(mail, run) == Some(Value())
      ensures |run| < |events| ==>
                Value() == D.Arriving(D.Run(mail, run).value, events[|run|]) && !D.Manageable(Value())
      ensures pcb.written <= D.Dialogue(mail, path) && |outcomes| <= 1
      ensures outcomes != [] && outcomes[0].result == D.Ok <==> pcb.written == D.Dialogue(mail, path)
    {
      hide D.Step, D.Dialogue, D.Manageable;
      run := [];
      StartManages();
      var i := 0;
      while i < |events|
        invariant i == |run| <= |events| && forall k :: 0 <= k < |run| ==> run[k].0 == events[k]
        invariant Ready() && Manages() && D.Run(mail, run) == Some(Value())
      {
        D.Safety(mail, run);
        ghost var c;
        var defined;
        c, defined := Callback(events[i]);
        if !defined {
          return;
        }
        ghost var more := run + [(events[i], c)];
        assert more[..|more| - 1] == run;
        run := more;
        i := i + 1;
      }
      D.Safety(mail, run);
    }

    lemma StartManages()
      requires Value() == D.START
      ensures Manages()
    {
    }
  }
}
