/** What the SMTP session does for a server that plays its part, and how it ends with one that does not. */
module SmtpProgress {
  import opened Common
  import opened SmtpData
  import opened SmtpDialogue
  import opened SmtpReply
  import opened SmtpText

  // ----- One reply -----

  /** A whole reply is answered, or the session closes with its code: as soon as the stack lets it. */
  lemma ReplyHasItsEffect(m: Mail, t: Talk, data: string, c: Choice)
    requires Sendable(m) && t.bodySent <= |m.body| && t.outcomes == [] && t.state != Closed
    requires Finished(Pending(t) + data) && Code(Pending(t) + data) != 0
    ensures var p := Pending(t) + data;
            var a := Step(m, t, Recv(data), c);
            match Respond(m, t, Code(p), p)
            case None => a == t.(p := Some(p), outcomes := if c.closed then [Outcome(ErrSvrResp, Code(p))] else [])
            case Some(answer) =>
              if c.command then
                && a.p == None && a.heard == t.heard + [Reply(p)] && t.written + answer.text <= a.written
                && a.path == answer.path
                && (a.state == answer.state || (answer.state == Body && a.state == Quit))
                && a.outcomes == if answer.state == Closed then [Outcome(Ok, 0)] else []
              else a == t.(p := Some(p))
  {
    hide Respond, Code, Finished, SendBody;
    var p := Pending(t) + data;
    var answer := Respond(m, t, Code(p), p);
    RespondForgets(m, t, Code(p), p);
    if answer.Some? {
      SendBodyAdds(m, t.(state := answer.value.state, path := answer.value.path, timer := SMTP_TIMEOUT, p := None,
                         heard := t.heard + [Reply(p)], written := t.written + answer.value.text), c);
    }
  }

  /** The answer does not depend on what is pending. */
  lemma RespondForgets(m: Mail, t: Talk, code: nat, p: string)
    requires Sendable(m)
    ensures Respond(m, t.(p := Some(p)), code, p) == Respond(m, t, code, p)
  {
  }

  lemma SendBodyAdds(m: Mail, t: Talk, c: Choice)
    requires t.bodySent <= |m.body|
    ensures var a := SendBody(m, t, c);
            && a.p == t.p && a.heard == t.heard && a.path == t.path && a.outcomes == t.outcomes
            && t.written <= a.written && (a.state == t.state || (t.state == Body && a.state == Quit))
  {
  }

  // ----- The body and the timers -----

  /** In the body every acknowledgement sends as much as fits, and the end right behind the last of it. */
  lemma BodyMovesOn(m: Mail, t: Talk, c: Choice)
    requires Sendable(m) && t.bodySent <= |m.body| && t.outcomes == [] && t.state == Body && t.timer != 0 && c.body
    ensures var a := Step(m, t, Sent, c);
            && a.bodySent == (if |m.body| <= t.bodySent + c.space then |m.body| else t.bodySent + c.space)
            && (a.state == Quit <==> a.bodySent == |m.body| && c.end) && (a.state == Quit || a.state == Body)
            && a.written == t.written + m.body[t.bodySent..a.bodySent] + if a.state == Quit then "\r\n.\r\n" else ""
  {
  }

  /** Whatever is written, the server has its time to answer: 240 polls after a command, 360 after a part
      of the body, and 1200 after its end. */
  lemma TimeToAnswer(m: Mail, t: Talk, e: Event, c: Choice)
    requires Sendable(m) && t.bodySent <= |m.body| && t.outcomes == []
    ensures var a := Step(m, t, e, c);
            a.written != t.written && a.outcomes == [] ==>
              a.timer == if a.state == Quit then 1200 else if a.bodySent > t.bodySent then 360 else 240
  {
    hide Respond, Code, Accepts, SendBody;
    match e
    case Recv(_) => ReactSetsTimer(m, Arriving(t, e), c);
    case Sent =>
      ReactSetsTimer(m, t, c);
      SendBodySetsTimer(m, t, c);
    case Poll =>
      var t1 := t.(timer := if t.timer != 0 then t.timer - 1 else 0);
      ReactSetsTimer(m, t1, c);
      SendBodySetsTimer(m, t1, c);
    case _ =>
  }

  lemma SendBodySetsTimer(m: Mail, t: Talk, c: Choice)
    requires t.bodySent <= |m.body|
    ensures var a := SendBody(m, t, c);
            && (a.written != t.written ==> a.timer == if a.state == Quit then 1200 else 360)
            && (a.written != t.written && a.state != Quit ==> a.bodySent > t.bodySent)
            && (a.written == t.written ==> a == t)
            && t.written <= a.written
  {
  }

  lemma ReactSetsTimer(m: Mail, t: Talk, c: Choice)
    requires Sendable(m) && t.bodySent <= |m.body| && t.outcomes == []
    ensures var a := React(m, t, c);
            a.written != t.written && a.outcomes == [] ==>
              a.timer == if a.state == Quit then 1200 else if a.bodySent > t.bodySent then 360 else 240
  {
    hide Respond, Code, Accepts, SendBody;
    if t.p.Some? {
      var p := t.p.value;
      var a := Respond(m, t, Code(p), p);
      if a.Some? {
        NotQuit(m, t, Code(p), p);
        var t1 := t.(state := a.value.state, path := a.value.path, timer := SMTP_TIMEOUT, p := None,
                     heard := t.heard + [Reply(p)], written := t.written + a.value.text);
        SendBodySetsTimer(m, t1, c);
      }
    }
  }

  lemma NotQuit(m: Mail, t: Talk, code: nat, p: string)
    requires Sendable(m) && Respond(m, t, code, p).Some?
    ensures Respond(m, t, code, p).value.state != Quit
  {
  }

  // ----- A server that plays its part -----

  /** What the stack decides when nothing is in the way. */
  predicate Willing(m: Mail, c: Choice) {
    c.command && c.body && c.end && c.space >= |m.body|
  }

  /** How the offer in the reply to EHLO leads to a way to log in: PLAIN before LOGIN before none. */
  predicate Offers(path: Path, reply: string) {
    match path
    case Direct => AuthLine(reply).Some? ==>
      !Contains(Offer(AuthLine(reply).value), "PLAIN") && !Contains(Offer(AuthLine(reply).value), "LOGIN")
    case PlainAuth => AuthLine(reply).Some? && Contains(Offer(AuthLine(reply).value), "PLAIN")
    case LoginAuth =>
      && AuthLine(reply).Some? && !Contains(Offer(AuthLine(reply).value), "PLAIN")
      && Contains(Offer(AuthLine(reply).value), "LOGIN")
  }

  /** The methods are what follows the first `AUTH ` up to the end of its line; where there is none, what
      follows the first `AUTH=`. */
  lemma MethodsOffered(before: string, keyword: string, methods: string, rest: string)
    requires keyword == "AUTH " || keyword == "AUTH="
    requires '\r' !in methods && '\0' !in methods
    requires var reply := before + keyword + methods + CRLF + rest;
             && (forall k :: 0 <= k < |before| ==> !IsAt(reply, keyword, k))
             && (keyword == "AUTH=" ==> forall k :: 0 <= k <= |reply| ==> !IsAt(reply, "AUTH ", k))
    ensures var line := AuthLine(before + keyword + methods + CRLF + rest);
            line == Some(keyword + methods) && Offer(line.value) == methods
  {
    hide Find, CString;
    var reply := before + keyword + methods + CRLF + rest;
    var auth, crlf := |before|, |before| + 5 + |methods|;
    assert reply[auth..auth + 5] == keyword;
    KeywordFound(reply, keyword, auth);
    LineEnds(before + keyword + methods, rest, auth + 5);
    assert (before + keyword + methods)[auth + 5..] == methods;
    NoCrInKeyword(reply, keyword, auth);
    assert reply[auth..crlf] == keyword + methods && (keyword + methods)[5..] == methods;
    WholeCString(methods);
  }

  lemma KeywordFound(reply: string, keyword: string, auth: nat)
    requires keyword == "AUTH " || keyword == "AUTH="
    requires IsAt(reply, keyword, auth) && forall k :: 0 <= k < auth ==> !IsAt(reply, keyword, k)
    requires keyword == "AUTH=" ==> forall k :: 0 <= k <= |reply| ==> !IsAt(reply, "AUTH ", k)
    ensures AuthAt(reply) == Some(auth)
  {
    hide Find;
    FindMissesNone(reply, keyword, 0, auth);
    var at := Find(reply, keyword, 0).value;
    assert IsAt(reply, keyword, at);
    var sp := Find(reply, "AUTH ", 0);
    assert sp.Some? ==> IsAt(reply, "AUTH ", sp.value);
  }

  /** The keyword holds no CR. */
  lemma NoCrInKeyword(reply: string, keyword: string, auth: nat)
    requires keyword == "AUTH " || keyword == "AUTH="
    requires auth + 5 <= |reply| && reply[auth..auth + 5] == keyword
    ensures Find(reply, CRLF, auth) == Find(reply, CRLF, auth + 5)
  {
    hide Find;
    forall k | auth <= k < auth + 5 ensures reply[k] != '\r' {
      assert reply[k] == reply[auth..auth + 5][k - auth];
    }
    NoCrSteps(reply, auth, auth + 5);
  }

  lemma {:induction false} NoCrSteps(reply: string, at: nat, end: nat)
    requires at <= end <= |reply| && forall k :: at <= k < end ==> reply[k] != '\r'
    ensures Find(reply, CRLF, at) == Find(reply, CRLF, end)
    decreases end - at
  {
    hide Find;
    if at < end {
      FindStep(reply, CRLF, at);
      assert at + 2 <= |reply| ==> reply[at..at + 2][0] == reply[at];
      NoCrSteps(reply, at + 1, end);
    }
  }

  lemma {:induction false} WholeCString(s: string)
    requires '\0' !in s
    ensures CString(s) == s
  {
    if s != "" {
      assert s[0] in s;
      WholeCString(s[1..]);
    }
  }

  /** The codes a server has to send that lets the client in and takes its mail. */
  function GoodCodes(path: Path): seq<nat> {
    match path
    case Direct => [220, 250, 250, 250, 354, 250]
    case PlainAuth => [220, 250, 235, 250, 250, 354, 250]
    case LoginAuth => [220, 250, 334, 334, 235, 250, 250, 354, 250]
  }

  /** Whole replies with those codes, an offer that fits and, for AUTH LOGIN, its two prompts. */
  ghost predicate GoodReplies(path: Path, replies: seq<string>) {
    && |replies| == |GoodCodes(path)|
    && (forall k :: 0 <= k < |replies| ==>
          Finished(replies[k]) && |replies[k]| < U16 && Code(replies[k]) == GoodCodes(path)[k])
    && Offers(path, replies[1]) && OfferFits(replies[1])
    && (path == LoginAuth ==> Contains(replies[2], "VXNlcm5hbWU6") && Contains(replies[3], "UGFzc3dvcmQ6"))
  }

  /** The run in which they arrive one after the other. */
  function Arrivals(replies: seq<string>, c: Choice): seq<(Event, Choice)> {
    seq(|replies|, k requires 0 <= k < |replies| => (Recv(replies[k]), c))
  }

  function StateAfter(path: Path, k: nat): State {
    match path
    case Direct => [Null, Helo, MailFrom, Rcpt, Data, Quit, Closed][if k > 6 then 6 else k]
    case PlainAuth => [Null, Helo, AuthPlain, MailFrom, Rcpt, Data, Quit, Closed][if k > 7 then 7 else k]
    case LoginAuth =>
      [Null, Helo, AuthLoginUname, AuthLoginPass, AuthLogin, MailFrom, Rcpt, Data, Quit, Closed][if k > 9 then 9 else k]
  }

  /** After `k` replies the client waits for the next, or is done. */
  ghost predicate InStep(m: Mail, t: Talk, path: Path, k: nat) {
    && t.bodySent <= |m.body| && t.p == None && t.state == StateAfter(path, k)
    && t.path == (if k < 2 then Direct else path)
    && t.bodySent == (if t.state == Quit || t.state == Closed then |m.body| else 0)
    && t.outcomes == if k == |GoodCodes(path)| then [Outcome(Ok, 0)] else []
  }

  /** The server that sends them gets the mail, and success is reported: with `SmtpServer.ServerUnderstands`,
      it has the sender, the recipient, the login and the mail. */
  lemma GoodServerGetsTheMail(m: Mail, path: Path, replies: seq<string>, c: Choice)
    requires Sendable(m) && GoodReplies(path, replies) && Willing(m, c)
    ensures var run := Run(m, Arrivals(replies, c));
            && run.Some? && run.value.outcomes == [Outcome(Ok, 0)] && run.value.path == path
            && run.value.written == Dialogue(m, path)
  {
    hide Run, Arrivals, GoodReplies, Dialogue;
    assert |replies| == |GoodCodes(path)| by { LengthIs(path, replies); }
    RepliesInStep(m, path, replies, c, |replies|);
    assert replies[..|replies|] == replies;
    Safety(m, Arrivals(replies, c));
  }

  lemma LengthIs(path: Path, replies: seq<string>)
    requires GoodReplies(path, replies)
    ensures |replies| == |GoodCodes(path)|
  {
  }

  lemma {:induction false} RepliesInStep(m: Mail, path: Path, replies: seq<string>, c: Choice, k: nat)
    requires Sendable(m) && GoodReplies(path, replies) && Willing(m, c) && k <= |replies|
    ensures Run(m, Arrivals(replies[..k], c)).Some? && InStep(m, Run(m, Arrivals(replies[..k], c)).value, path, k)
    decreases k
  {
    hide GoodReplies, Run, Step, Manageable, Sendable, Willing, InStep, Arrivals;
    if k == 0 {
      StartInStep(m, path, replies, c);
    } else {
      RepliesInStep(m, path, replies, c, k - 1);
      var t := Run(m, Arrivals(replies[..k - 1], c)).value;
      NextInStep(m, t, path, replies, c, k - 1);
      OneMore(m, replies, c, k - 1);
    }
  }

  lemma StartInStep(m: Mail, path: Path, replies: seq<string>, c: Choice)
    requires Sendable(m)
    ensures Run(m, Arrivals(replies[..0], c)) == Some(START) && InStep(m, START, path, 0)
  {
    assert Arrivals(replies[..0], c) == [];
  }

  lemma OneMore(m: Mail, replies: seq<string>, c: Choice, k: nat)
    requires Sendable(m) && k < |replies| && Run(m, Arrivals(replies[..k], c)).Some?
    requires Manageable(Arriving(Run(m, Arrivals(replies[..k], c)).value, Recv(replies[k])))
    ensures Run(m, Arrivals(replies[..k + 1], c)) ==
            Some(Step(m, Run(m, Arrivals(replies[..k], c)).value, Recv(replies[k]), c))
  {
    hide Step, Manageable, Arriving;
    var events := Arrivals(replies[..k + 1], c);
    assert events[..k] == Arrivals(replies[..k], c);
    assert events[k] == (Recv(replies[k]), c);
  }

  lemma NextInStep(m: Mail, t: Talk, path: Path, replies: seq<string>, c: Choice, k: nat)
    requires Sendable(m) && GoodReplies(path, replies) && Willing(m, c) && k < |replies| && InStep(m, t, path, k)
    ensures Manageable(Arriving(t, Recv(replies[k]))) && InStep(m, Step(m, t, Recv(replies[k]), c), path, k + 1)
  {
    hide Code, Finished, WrapsTo, OfferFits, AuthLine, Contains, Offer, Sendable, Step, Respond, Accepts;
    var p := replies[k];
    assert "" + p == p;
    CodeSettles(p);
    GoodAnswer(m, t, path, replies, k);
    AnswerTaken(m, t, p, c, Respond(m, t, Code(p), p).value);
  }

  /** The answer to each of them leads on. */
  lemma GoodAnswer(m: Mail, t: Talk, path: Path, replies: seq<string>, k: nat)
    requires Sendable(m) && GoodReplies(path, replies) && k < |replies| && InStep(m, t, path, k)
    ensures LeadsOn(t, path, k, Respond(m, t, Code(replies[k]), replies[k]))
  {
    hide Code, Finished, OfferFits, AuthLine, Contains, Offer, Sendable, LeadsOn, Respond;
    match path
    case Direct => DirectAnswer(m, t, replies, k);
    case PlainAuth => PlainAnswer(m, t, replies, k);
    case LoginAuth => LoginAnswer(m, t, replies, k);
  }

  ghost predicate LeadsOn(t: Talk, path: Path, k: nat, a: Option<Answer>) {
    && a.Some? && t.state != Closed && a.value.path == (if k + 1 < 2 then Direct else path)
    && StateAfter(path, k + 1) == (if a.value.state == Body then Quit else a.value.state)
    && (a.value.state == Closed <==> k + 1 == |GoodCodes(path)|)
    && (a.value.state == Closed <==> t.state == Quit) && a.value.state != Quit
  }

  lemma DirectAnswer(m: Mail, t: Talk, replies: seq<string>, k: nat)
    requires Sendable(m) && GoodReplies(Direct, replies) && k < |replies| && InStep(m, t, Direct, k)
    ensures LeadsOn(t, Direct, k, Respond(m, t, Code(replies[k]), replies[k]))
  {
    hide Code, Finished, OfferFits, AuthLine, Contains, Offer, Sendable;
    hide Ehlo, AuthPlainLine, MailLine, RcptLine, Base64Line, Header;
  }

  lemma PlainAnswer(m: Mail, t: Talk, replies: seq<string>, k: nat)
    requires Sendable(m) && GoodReplies(PlainAuth, replies) && k < |replies| && InStep(m, t, PlainAuth, k)
    ensures LeadsOn(t, PlainAuth, k, Respond(m, t, Code(replies[k]), replies[k]))
  {
    hide Code, Finished, OfferFits, AuthLine, Contains, Offer, Sendable;
    hide Ehlo, AuthPlainLine, MailLine, RcptLine, Base64Line, Header;
  }

  lemma LoginAnswer(m: Mail, t: Talk, replies: seq<string>, k: nat)
    requires Sendable(m) && GoodReplies(LoginAuth, replies) && k < |replies| && InStep(m, t, LoginAuth, k)
    ensures LeadsOn(t, LoginAuth, k, Respond(m, t, Code(replies[k]), replies[k]))
  {
    hide Code, Finished, OfferFits, AuthLine, Contains, Offer, Sendable;
    hide Ehlo, AuthPlainLine, MailLine, RcptLine, Base64Line, Header;
  }

  lemma AnswerTaken(m: Mail, t: Talk, p: string, c: Choice, a: Answer)
    requires Sendable(m) && t.p == None && t.outcomes == [] && t.state != Closed && Willing(m, c)
    requires t.bodySent == (if t.state == Quit then |m.body| else 0)
    requires Finished(p) && Code(p) != 0 && Respond(m, t, Code(p), p) == Some(a)
    ensures var after := Step(m, t, Recv(p), c);
            && after.p == None && after.path == a.path && after.state == (if a.state == Body then Quit else a.state)
            && after.bodySent == (if t.state == Quit || a.state == Body then |m.body| else 0)
            && after.outcomes == if a.state == Closed then [Outcome(Ok, 0)] else []
  {
    hide Code, Finished, Respond;
    assert "" + p == p;
    RespondForgets(m, t, Code(p), p);
  }
}
