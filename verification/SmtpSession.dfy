/** server/SmtpSession.cpp, server/SmtpParser.cpp and the loop that drives them in server/server_main.cpp.
    The user repository's answer to `authorize` and the outcome of storing a message come in as parameters. */
module SmtpSession {
  import opened Text
  import opened Wrappers
  import Base64
  import MimeEncoder

  // ------------------------------------------------------------------- parsing

  datatype Command =
    | Helo(extended: bool) | Mail(argument: string) | Rcpt(argument: string) | Data | Rset | Noop | Quit | StartTls
    | Auth(argument: string) | Unknown

  function StripAngles(s: string): string {
    if |s| >= 2 && s[0] == '<' && s[|s| - 1] == '>' then s[1..|s| - 1] else s
  }

  /** Only the mechanism of an AUTH argument is upper-cased; credentials keep their case. */
  function AuthArgument(arg: string): string {
    var sp := FindChar(arg, ' ', 0);
    if sp == NPOS then ToUpper(arg) else ToUpper(arg[..sp]) + " " + arg[sp + 1..]
  }

  function ParseCommand(line: string): Command {
    var clean := if line != "" && line[|line| - 1] == '\r' then line[..|line| - 1] else line;
    var upper := ToUpper(clean);
    if StartsWith(upper, "HELO ") then Helo(false)
    else if StartsWith(upper, "EHLO ") then Helo(true)
    else if StartsWith(upper, "MAIL FROM:") then Mail(StripAngles(Trim(clean[10..])))
    else if StartsWith(upper, "RCPT TO:") then Rcpt(StripAngles(Trim(clean[8..])))
    else if upper == "DATA" then Data
    else if upper == "RSET" then Rset
    else if upper == "NOOP" then Noop
    else if upper == "QUIT" then Quit
    else if upper == "STARTTLS" then StartTls
    else if StartsWith(upper, "AUTH ") then Auth(AuthArgument(clean[5..]))
    else Unknown
  }

  function ExtractUsername(email: string): string {
    var at := FindChar(email, '@', 0);
    if at == NPOS then email else email[..at]
  }

  // ------------------------------------------------------------------- session

  const MAX_SMTP_LINE := 512

  const MAX_MESSAGE_SIZE := 10 * 1024 * 1024

  datatype Phase = WaitHelo | WaitMail | WaitRcpt | ReceivingData | Closed | AwaitTls | AuthWaitUser | AuthWaitPass

  datatype Session = Session(
    phase: Phase, sender: string, recipients: seq<string>, body: string,
    authenticated: bool, secure: bool, authUser: string)

  /** Silent is the empty answer, which is not sent. Crashed is an exception that leaves ProcessLine. */
  datatype Reply =
    | Silent | Crashed | Accepted | Hello(extended: bool, secure: bool) | StartMailInput | Closing | ReadyForTls
    | BadSequence | AuthRequired | EncryptionRequired | AskUser | AskPassword | AskPlain | AuthFailed | AuthSucceeded
    | UnknownMechanism | SyntaxError | NotImplemented | TooLarge | StorageFailed

  /** What happened, as far as the protocol cares. */
  datatype Fact =
    | Greeted | Secured | Granted(user: string, password: string) | MailFrom(sender: string) | RcptTo(recipient: string)
    | DataStarted | DataLine(line: string) | Saved(sender: string, recipients: seq<string>, body: string)

  datatype Outcome = Outcome(session: Session, reply: Reply, facts: seq<Fact>)

  function ResetMessage(s: Session): Session {
    s.(sender := "", recipients := [], body := "")
  }

  function ResetToHelo(s: Session): Session {
    ResetMessage(s.(phase := WaitHelo, authenticated := false, authUser := ""))
  }

  /** The user and password between and after the first two NULs. */
  function Credentials(blob: string): Option<(string, string)> {
    var first := FindChar(blob, '\0', 0);
    if first == NPOS then None
    else
      var second := FindChar(blob, '\0', first + 1);
      if second == NPOS then None else Some((ExtractUsername(blob[first + 1..second]), blob[second + 1..]))
  }

  function DecodeText(text: string): Result<string> {
    match Base64.DecodeBase64(text)
    case Ok(bytes) => Result.Ok(MimeEncoder.FromBytes(bytes))
    case Thrown(what) => Thrown(what)
  }

  /** The repository's answer to these credentials decides. */
  function Authorize(s: Session, user: string, password: string, granted: bool): Outcome {
    if granted then Outcome(s.(authenticated := true), AuthSucceeded, [Granted(user, password)])
    else Outcome(s, AuthFailed, [])
  }

  datatype Mechanism = Login | Plain(initial: string) | OtherMechanism

  function ParseMechanism(argument: string): Mechanism {
    var sp := FindChar(argument, ' ', 0);
    var name := if sp == NPOS then argument else argument[..sp];
    if name == "LOGIN" then Login
    else if name == "PLAIN" then Plain(if sp == NPOS then "" else argument[sp + 1..])
    else OtherMechanism
  }

  /** Credentials sent along with AUTH PLAIN. */
  function HandlePlain(s: Session, initial: string, granted: bool): Outcome {
    match DecodeText(initial)
    case Thrown(_) => Outcome(s, Crashed, [])
    case Ok(blob) =>
      match Credentials(blob)
      case None => Outcome(s, AuthFailed, [])
      case Some((user, password)) => Authorize(s, user, password, granted)
  }

  function HandleAuth(s: Session, argument: string, granted: bool): Outcome {
    if s.phase != WaitMail || s.authenticated then Outcome(s, BadSequence, [])
    else if !s.secure then Outcome(s, EncryptionRequired, [])
    else
      match ParseMechanism(argument)
      case Login => Outcome(s.(phase := AuthWaitUser), AskUser, [])
      case Plain(initial) =>
        if initial == "" then Outcome(s.(phase := AuthWaitPass), AskPlain, []) else HandlePlain(s, initial, granted)
      case OtherMechanism => Outcome(s, UnknownMechanism, [])
  }

  function HandleAuthLine(s: Session, line: string, granted: bool): Outcome {
    match DecodeText(line)
    case Thrown(_) => Outcome(s, Crashed, [])
    case Ok(value) =>
      if value == "" && line != "" then Outcome(s.(phase := WaitMail, authUser := ""), AuthFailed, [])
      else if s.phase == AuthWaitUser then
        Outcome(s.(phase := AuthWaitPass, authUser := ExtractUsername(value)), AskPassword, [])
      else if s.authUser == "" then
        match Credentials(value)
        case None => Outcome(s.(phase := WaitMail), AuthFailed, [])
        case Some((user, password)) => Authorize(s.(phase := WaitMail), user, password, granted)
      else Authorize(s.(phase := WaitMail, authUser := ""), s.authUser, value, granted)
  }

  /** A line of the message, or its end. */
  function HandleDataLine(s: Session, line: string, saves: bool): Outcome {
    if line == "." then
      var done := ResetMessage(s.(phase := WaitMail));
      if s.recipients != [] && saves then Outcome(done, Accepted, [Saved(s.sender, s.recipients, s.body)])
      else Outcome(done, StorageFailed, [])
    else
      var grown := s.(body := s.body + line + "\n");
      if |grown.body| > MAX_MESSAGE_SIZE then Outcome(ResetMessage(s.(phase := WaitMail)), TooLarge, [])
      else Outcome(grown, Silent, [DataLine(line)])
  }

  function HandleCommand(s: Session, c: Command, granted: bool): Outcome {
    match c
    case Helo(extended) => Outcome(ResetToHelo(s).(phase := WaitMail), Hello(extended, s.secure), [Greeted])
    case Auth(argument) => HandleAuth(s, argument, granted)
    case Mail(argument) =>
      if s.phase != WaitMail then Outcome(s, BadSequence, [])
      else if !s.authenticated then Outcome(s, AuthRequired, [])
      else
        var sender := ExtractUsername(argument);
        Outcome(s.(sender := sender, phase := WaitRcpt), Accepted, [MailFrom(sender)])
    case Rcpt(argument) =>
      if s.phase != WaitRcpt then Outcome(s, BadSequence, [])
      else
        var recipient := ExtractUsername(argument);
        Outcome(s.(recipients := s.recipients + [recipient]), Accepted, [RcptTo(recipient)])
    case Data =>
      if s.phase != WaitRcpt || s.recipients == [] then Outcome(s, BadSequence, [])
      else Outcome(s.(phase := ReceivingData), StartMailInput, [DataStarted])
    case Rset => Outcome(ResetMessage(s.(phase := WaitMail)), Accepted, [])
    case Noop => Outcome(s, Accepted, [])
    case Quit => Outcome(s.(phase := Closed), Closing, [])
    case StartTls =>
      if s.phase != WaitMail then Outcome(s, BadSequence, []) else Outcome(s.(phase := AwaitTls), ReadyForTls, [])
    case Unknown => Outcome(s, NotImplemented, [])
  }

  /** SmtpSession::ProcessLine. */
  function Process(s: Session, line: string, granted: bool, saves: bool): Outcome {
    if |line| > MAX_SMTP_LINE then Outcome(s, SyntaxError, [])
    else if s.phase == AuthWaitUser || s.phase == AuthWaitPass then HandleAuthLine(s, line, granted)
    else if s.phase == ReceivingData then HandleDataLine(s, line, saves)
    else HandleCommand(s, ParseCommand(line), granted)
  }

  // ---------------------------------------------------------------- the server

  /** A connection: the session, whether the loop still runs, and everything that happened, in order. */
  datatype Server = Server(session: Session, open: bool, history: seq<Fact>)

  const FRESH := Server(Session(WaitHelo, "", [], "", false, false, ""), true, [])

  /** A line that arrived, the answers of the repositories, and what the connection does next. */
  datatype Input = Input(line: string, granted: bool, saves: bool, sendOk: bool, tlsOk: bool)

  /** One round of the loop in server_main.cpp. */
  function Round(v: Server, i: Input): Server {
    if !v.open then v
    else
      var out := Process(v.session, i.line, i.granted, i.saves);
      var history := v.history + out.facts;
      if out.reply.Crashed? || (!out.reply.Silent? && !i.sendOk) then Server(out.session, false, history)
      else if out.session.phase == AwaitTls then
        if !i.tlsOk then Server(out.session, false, history)
        else Server(ResetToHelo(out.session.(secure := true)), true, history + [Secured])
      else Server(out.session, out.session.phase != Closed, history)
  }

  function Serve(v: Server, inputs: seq<Input>): Server
    decreases |inputs|
  {
    if inputs == [] then v else Serve(Round(v, inputs[0]), inputs[1..])
  }

  // ---------------------------------------------------------- reading a history

  /** Some user was authorized after the last greeting and the last TLS handshake. */
  predicate AuthorizedSinceReset(h: seq<Fact>) {
    h != [] &&
    match h[|h| - 1]
    case Greeted => false
    case Secured => false
    case Granted(_, _) => true
    case _ => AuthorizedSinceReset(h[..|h| - 1])
  }

  /** The recipients accepted since the last accepted MAIL. */
  function RecipientsSinceMail(h: seq<Fact>): seq<string> {
    if h == [] then []
    else
      match h[|h| - 1]
      case MailFrom(_) => []
      case RcptTo(recipient) => RecipientsSinceMail(h[..|h| - 1]) + [recipient]
      case _ => RecipientsSinceMail(h[..|h| - 1])
  }

  function LastSender(h: seq<Fact>): string {
    if h == [] then ""
    else
      match h[|h| - 1]
      case MailFrom(sender) => sender
      case _ => LastSender(h[..|h| - 1])
  }

  /** The lines received since the last accepted DATA, each with its LF. */
  function TextSinceData(h: seq<Fact>): string {
    if h == [] then ""
    else
      match h[|h| - 1]
      case DataStarted => ""
      case DataLine(line) => TextSinceData(h[..|h| - 1]) + line + "\n"
      case _ => TextSinceData(h[..|h| - 1])
  }

  // ---------------------------------------------------------------- invariants

  predicate EmptyEnvelope(s: Session) {
    s.sender == "" && s.recipients == [] && s.body == ""
  }

  /** What every state of a session promises by itself. */
  ghost predicate Valid(s: Session) {
    && (s.authenticated ==> s.secure)
    && (s.phase == WaitRcpt || s.phase == ReceivingData ==> s.authenticated)
    && (s.phase == ReceivingData ==> s.recipients != [])
    && (s.phase == WaitRcpt ==> s.body == "")
    && |s.body| <= MAX_MESSAGE_SIZE
    && (s.phase != WaitRcpt && s.phase != ReceivingData && s.phase != Closed ==> EmptyEnvelope(s))
    && (s.phase == AuthWaitUser || s.phase == AuthWaitPass ==> s.secure && !s.authenticated)
    && (s.phase != AuthWaitPass ==> s.authUser == "")
  }

  /** Everything that was saved was sent by an authorized client over TLS, under the sender and to the
      recipients of the last accepted MAIL, with the lines since the last accepted DATA. */
  ghost predicate SavedRight(before: seq<Fact>, f: Fact) {
    f.Saved? ==>
      && AuthorizedSinceReset(before) && Secured in before
      && f.sender == LastSender(before) && f.recipients == RecipientsSinceMail(before) && f.recipients != []
      && f.body == TextSinceData(before) && |f.body| <= MAX_MESSAGE_SIZE
  }

  ghost predicate SavesRight(h: seq<Fact>) {
    forall i :: 0 <= i < |h| ==> SavedRight(h[..i], h[i])
  }

  /** What a state owes to the history that led to it. */
  ghost predicate Explained(s: Session, h: seq<Fact>) {
    && (s.authenticated ==> AuthorizedSinceReset(h))
    && (s.secure ==> Secured in h)
    && (s.phase == WaitRcpt || s.phase == ReceivingData ==>
          s.sender == LastSender(h) && s.recipients == RecipientsSinceMail(h))
    && (s.phase == ReceivingData ==> s.body == TextSinceData(h))
  }

  ghost predicate Good(s: Session, h: seq<Fact>) {
    Valid(s) && Explained(s, h) && SavesRight(h)
  }

  /** One more fact, seen by each reader of histories. */
  lemma Snoc(h: seq<Fact>, f: Fact)
    ensures AuthorizedSinceReset(h + [f])
         == if f.Greeted? || f.Secured? then false else f.Granted? || AuthorizedSinceReset(h)
    ensures RecipientsSinceMail(h + [f])
         == if f.MailFrom? then [] else if f.RcptTo? then RecipientsSinceMail(h) + [f.recipient]
           else RecipientsSinceMail(h)
    ensures LastSender(h + [f]) == if f.MailFrom? then f.sender else LastSender(h)
    ensures TextSinceData(h + [f])
         == if f.DataStarted? then "" else if f.DataLine? then TextSinceData(h) + f.line + "\n" else TextSinceData(h)
  {
    assert (h + [f])[..|h|] == h;
  }

  lemma SnocSaves(h: seq<Fact>, f: Fact)
    requires SavesRight(h) && SavedRight(h, f)
    ensures SavesRight(h + [f])
  {
    hide SavedRight;
    var g := h + [f];
    forall i | 0 <= i < |g| ensures SavedRight(g[..i], g[i]) {
      assert g[..i] == h[..i];
    }
  }

  lemma NoFacts(h: seq<Fact>)
    ensures h + [] == h
  {
  }

  lemma AuthorizeKeeps(s: Session, h: seq<Fact>, user: string, password: string, granted: bool)
    requires Good(s, h) && s.secure && s.phase == WaitMail
    ensures var out := Authorize(s, user, password, granted); Good(out.session, h + out.facts)
  {
    NoFacts(h);
    Snoc(h, Granted(user, password));
    SnocSaves(h, Granted(user, password));
    hide SavesRight, AuthorizedSinceReset, RecipientsSinceMail, LastSender, TextSinceData;
  }

  lemma PlainKeeps(s: Session, h: seq<Fact>, initial: string, granted: bool)
    requires Good(s, h) && s.secure && s.phase == WaitMail
    ensures var out := HandlePlain(s, initial, granted); Good(out.session, h + out.facts)
  {
    NoFacts(h);
    hide Good, Credentials, DecodeText, Authorize;
    match DecodeText(initial)
    case Thrown(_) =>
    case Ok(blob) =>
      if Credentials(blob).Some? {
        AuthorizeKeeps(s, h, Credentials(blob).value.0, Credentials(blob).value.1, granted);
      }
  }

  lemma AuthKeeps(s: Session, h: seq<Fact>, argument: string, granted: bool)
    requires Good(s, h)
    ensures var out := HandleAuth(s, argument, granted); Good(out.session, h + out.facts)
  {
    NoFacts(h);
    hide SavesRight, HandlePlain, ParseMechanism, AuthorizedSinceReset, RecipientsSinceMail, LastSender, TextSinceData;
    if s.phase == WaitMail && s.secure && ParseMechanism(argument).Plain? {
      PlainKeeps(s, h, ParseMechanism(argument).initial, granted);
    }
  }

  lemma AuthLineKeeps(s: Session, h: seq<Fact>, line: string, granted: bool)
    requires Good(s, h) && (s.phase == AuthWaitUser || s.phase == AuthWaitPass)
    ensures var out := HandleAuthLine(s, line, granted); Good(out.session, h + out.facts)
  {
    NoFacts(h);
    hide SavesRight, Credentials, DecodeText, Authorize, AuthorizedSinceReset, RecipientsSinceMail, LastSender,
      TextSinceData, ExtractUsername;
    var cleared := s.(phase := WaitMail, authUser := "");
    assert Good(cleared, h);
    match DecodeText(line)
    case Thrown(_) =>
    case Ok(value) =>
      if s.authUser != "" {
        AuthorizeKeeps(cleared, h, s.authUser, value, granted);
      } else if Credentials(value).Some? {
        AuthorizeKeeps(cleared, h, Credentials(value).value.0, Credentials(value).value.1, granted);
      }
  }

  lemma DataLineKeeps(s: Session, h: seq<Fact>, line: string, saves: bool)
    requires Good(s, h) && s.phase == ReceivingData
    ensures var out := HandleDataLine(s, line, saves); Good(out.session, h + out.facts)
  {
    NoFacts(h);
    hide SavesRight, AuthorizedSinceReset, RecipientsSinceMail, LastSender, TextSinceData;
    if line == "." {
      var f := Saved(s.sender, s.recipients, s.body);
      Snoc(h, f);
      SnocSaves(h, f);
    } else {
      Snoc(h, DataLine(line));
      SnocSaves(h, DataLine(line));
    }
  }

  lemma CommandKeeps(s: Session, h: seq<Fact>, c: Command, granted: bool)
    requires Good(s, h) && s.phase != ReceivingData && s.phase != AuthWaitUser && s.phase != AuthWaitPass
    ensures var out := HandleCommand(s, c, granted); Good(out.session, h + out.facts)
  {
    NoFacts(h);
    hide SavesRight, AuthorizedSinceReset, RecipientsSinceMail, LastSender, TextSinceData, ExtractUsername, HandleAuth;
    if c.Auth? {
      AuthKeeps(s, h, c.argument, granted);
    } else {
      var facts := HandleCommand(s, c, granted).facts;
      if facts != [] {
        Snoc(h, facts[0]);
        SnocSaves(h, facts[0]);
      }
    }
  }

  lemma ProcessKeeps(s: Session, h: seq<Fact>, line: string, granted: bool, saves: bool)
    requires Good(s, h)
    ensures var out := Process(s, line, granted, saves); Good(out.session, h + out.facts)
  {
    hide Good, HandleAuthLine, HandleDataLine, HandleCommand, ParseCommand;
    NoFacts(h);
    if s.phase == AuthWaitUser || s.phase == AuthWaitPass {
      AuthLineKeeps(s, h, line, granted);
    } else if s.phase == ReceivingData {
      DataLineKeeps(s, h, line, saves);
    } else {
      CommandKeeps(s, h, ParseCommand(line), granted);
    }
  }

  lemma SecureKeeps(s: Session, h: seq<Fact>)
    requires Good(s, h)
    ensures Good(ResetToHelo(s.(secure := true)), h + [Secured])
  {
    SnocSaves(h, Secured);
    hide SavesRight, AuthorizedSinceReset, RecipientsSinceMail, LastSender, TextSinceData;
  }

  lemma RoundKeeps(v: Server, i: Input)
    requires Good(v.session, v.history)
    ensures Good(Round(v, i).session, Round(v, i).history)
  {
    hide Good, Process, ResetToHelo;
    ProcessKeeps(v.session, v.history, i.line, i.granted, i.saves);
    var out := Process(v.session, i.line, i.granted, i.saves);
    SecureKeeps(out.session, v.history + out.facts);
  }

  lemma {:induction false} ServeKeeps(v: Server, inputs: seq<Input>)
    requires Good(v.session, v.history)
    ensures Good(Serve(v, inputs).session, Serve(v, inputs).history)
    decreases |inputs|
  {
    hide Good, Round;
    if inputs != [] {
      RoundKeeps(v, inputs[0]);
      ServeKeeps(Round(v, inputs[0]), inputs[1..]);
    }
  }

  /** Every state of every connection. */
  lemma ServerSafety(inputs: seq<Input>)
    ensures var v := Serve(FRESH, inputs);
            && Valid(v.session)
            && (v.session.authenticated ==> Secured in v.history && AuthorizedSinceReset(v.history))
            && (v.session.phase == WaitRcpt || v.session.phase == ReceivingData ==>
                  v.session.authenticated && v.session.recipients == RecipientsSinceMail(v.history))
  {
    ServeKeeps(FRESH, inputs);
  }

  /** Every message saved on any connection. */
  lemma SavedAsSent(inputs: seq<Input>, i: nat)
    requires i < |Serve(FRESH, inputs).history| && Serve(FRESH, inputs).history[i].Saved?
    ensures SavedRight(Serve(FRESH, inputs).history[..i], Serve(FRESH, inputs).history[i])
  {
    ServeKeeps(FRESH, inputs);
  }

  /** A history reader spelled out: authorization is evidence of a grant with no reset after it. */
  lemma {:induction false} AuthorizedMeans(h: seq<Fact>)
    ensures AuthorizedSinceReset(h) <==> StandingGrant(h)
  {
    if h != [] {
      var init, last := h[..|h| - 1], h[|h| - 1];
      AuthorizedMeans(init);
      assert h == init + [last];
      Snoc(init, last);
      hide AuthorizedSinceReset;
      GrantStands(init, last);
    }
  }

  ghost predicate StandingGrant(h: seq<Fact>) {
    exists g :: 0 <= g < |h| && h[g].Granted? && NoResetAfter(h, g)
  }

  ghost predicate NoResetAfter(h: seq<Fact>, g: int) {
    forall r :: g < r < |h| ==> 0 <= r && !h[r].Greeted? && !h[r].Secured?
  }

  lemma GrantStands(h: seq<Fact>, f: Fact)
    ensures StandingGrant(h + [f]) <==> !f.Greeted? && !f.Secured? && (f.Granted? || StandingGrant(h))
  {
    var all := h + [f];
    assert all[|h|] == f;
    if f.Granted? {
      assert NoResetAfter(all, |h|);
    } else if !f.Greeted? && !f.Secured? && StandingGrant(h) {
      var g :| 0 <= g < |h| && h[g].Granted? && NoResetAfter(h, g);
      assert all[g] == h[g] && NoResetAfter(all, g);
    } else if StandingGrant(all) {
      var g :| 0 <= g < |all| && all[g].Granted? && NoResetAfter(all, g);
      assert forall r :: 0 <= r < |h| ==> h[r] == all[r];
      assert NoResetAfter(h, g);
    }
  }

  // ---------------------------------------------------------------- the object

  class SmtpConnection {
    var phase: Phase
    var sender: string
    var recipients: seq<string>
    var body: string
    var authenticated: bool
    var secure: bool
    var authUser: string
    ghost var history: seq<Fact>

    function Value(): Session
      reads this
    {
      Session(phase, sender, recipients, body, authenticated, secure, authUser)
    }

    ghost predicate Invariant()
      reads this
    {
      Good(Value(), history)
    }

    constructor ()
      ensures Value() == FRESH.session && history == [] && Invariant()
    {
      phase, sender, recipients, body := WaitHelo, "", [], "";
      authenticated, secure, authUser, history := false, false, "", [];
    }

    method ResetMail()
      modifies this`sender, this`recipients, this`body
      ensures Value() == ResetMessage(old(Value()))
    {
      sender, recipients, body := "", [], "";
    }

    method ResetSession()
      modifies this
      ensures Value() == ResetToHelo(old(Value())) && history == old(history)
    {
      phase := WaitHelo;
      authenticated := false;
      authUser := "";
      ResetMail();
    }

    /** SetSecure and ResetToHelo, as the loop calls them after a handshake. */
    method BecomeSecure()
      requires Invariant()
      modifies this
      ensures Value() == ResetToHelo(old(Value()).(secure := true)) && history == old(history) + [Secured]
      ensures Invariant()
    {
      SecureKeeps(Value(), history);
      hide Good;
      secure := true;
      ResetSession();
      history := history + [Secured];
    }

    method ReceiveDataLine(line: string, saves: bool) returns (reply: Reply)
      requires phase == ReceivingData
      modifies this
      ensures var out := HandleDataLine(old(Value()), line, saves);
              Value() == out.session && reply == out.reply && history == old(history) + out.facts
    {
      if line == "." {
        var stored := recipients != [] && saves;
        if stored {
          history := history + [Saved(sender, recipients, body)];
        }
        ResetMail();
        phase := WaitMail;
        return if stored then Accepted else StorageFailed;
      }
      body := body + line + "\n";
      if |body| > MAX_MESSAGE_SIZE {
        phase := WaitMail;
        ResetMail();
        return TooLarge;
      }
      history := history + [DataLine(line)];
      reply := Silent;
    }

    method HandleHelo(extended: bool) returns (reply: Reply)
      modifies this
      ensures var out := HandleCommand(old(Value()), Helo(extended), false);
              Value() == out.session && reply == out.reply && history == old(history) + out.facts
    {
      ResetSession();
      phase := WaitMail;
      history := history + [Greeted];
      reply := Hello(extended, secure);
    }

    method HandleMail(argument: string) returns (reply: Reply)
      modifies this
      ensures var out := HandleCommand(old(Value()), Mail(argument), false);
              Value() == out.session && reply == out.reply && history == old(history) + out.facts
    {
      if phase != WaitMail { return BadSequence; }
      if !authenticated { return AuthRequired; }
      sender := ExtractUsername(argument);
      phase := WaitRcpt;
      history := history + [MailFrom(sender)];
      reply := Accepted;
    }

    method HandleRcpt(argument: string) returns (reply: Reply)
      modifies this
      ensures var out := HandleCommand(old(Value()), Rcpt(argument), false);
              Value() == out.session && reply == out.reply && history == old(history) + out.facts
    {
      if phase != WaitRcpt { return BadSequence; }
      var recipient := ExtractUsername(argument);
      recipients := recipients + [recipient];
      history := history + [RcptTo(recipient)];
      reply := Accepted;
    }

    method HandleData() returns (reply: Reply)
      modifies this
      ensures var out := HandleCommand(old(Value()), Data, false);
              Value() == out.session && reply == out.reply && history == old(history) + out.facts
    {
      if phase != WaitRcpt || recipients == [] { return BadSequence; }
      phase := ReceivingData;
      history := history + [DataStarted];
      reply := StartMailInput;
    }

    /** The rest of AUTH and its continuation lines: a decision on values, then the new state. */
    method Adopt(out: Outcome) returns (reply: Reply)
      modifies this
      ensures Value() == out.session && reply == out.reply && history == old(history) + out.facts
    {
      var s := out.session;
      phase, sender, recipients, body := s.phase, s.sender, s.recipients, s.body;
      authenticated, secure, authUser := s.authenticated, s.secure, s.authUser;
      history := history + out.facts;
      reply := out.reply;
    }

    method ProcessLine(line: string, granted: bool, saves: bool) returns (reply: Reply)
      requires Invariant()
      modifies this
      ensures var out := Process(old(Value()), line, granted, saves);
              Value() == out.session && reply == out.reply && history == old(history) + out.facts
      ensures Invariant()
    {
      ProcessKeeps(Value(), history, line, granted, saves);
      hide Good, ParseCommand, HandleAuth, HandleAuthLine, HandleDataLine, ExtractUsername;
      if |line| > MAX_SMTP_LINE {
        reply := SyntaxError;
      } else if phase == AuthWaitUser || phase == AuthWaitPass {
        reply := Adopt(HandleAuthLine(Value(), line, granted));
      } else if phase == ReceivingData {
        reply := ReceiveDataLine(line, saves);
      } else {
        reply := Dispatch(ParseCommand(line), granted);
      }
    }

    method Dispatch(c: Command, granted: bool) returns (reply: Reply)
      modifies this
      ensures var out := HandleCommand(old(Value()), c, granted);
              Value() == out.session && reply == out.reply && history == old(history) + out.facts
    {
      hide HandleAuth, ExtractUsername;
      if c.Helo? {
        reply := HandleHelo(c.extended);
      } else if c.Auth? {
        reply := Adopt(HandleAuth(Value(), c.argument, granted));
      } else if c.Mail? {
        reply := HandleMail(c.argument);
      } else if c.Rcpt? {
        reply := HandleRcpt(c.argument);
      } else if c.Data? {
        reply := HandleData();
      } else if c.Rset? {
        ResetMail();
        phase := WaitMail;
        reply := Accepted;
      } else if c.Noop? {
        reply := Accepted;
      } else if c.Quit? {
        phase := Closed;
        reply := Closing;
      } else if c.StartTls? {
        if phase != WaitMail { return BadSequence; }
        phase := AwaitTls;
        reply := ReadyForTls;
      } else {
        reply := NotImplemented;
      }
    }
  }
}
