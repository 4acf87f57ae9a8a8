/**
 * The client's start-up order (client.py `start`, `__init_authentication`,
 * `__init_messaging`): connect, then run the login form until an attempt succeeds or
 * the user presses Ctrl+C, and only then start the two message threads.
 *
 * The threads are modelled as a schedule of atomic steps: what the user types into
 * the chat window, passes of the send thread and frames read by the receive thread.
 */
module Startup {
  import opened Optional
  import opened Encoding
  import opened Session
  import opened Protocol
  import opened LoginForm

  /** What happens in the login form: a submission (the three input fields, the
      selected tab and the server's reply to the attempt, if one is made) or Ctrl+C. */
  datatype FormInput =
    | Submit(username: string, password: string, passphrase: string, operation: string, reply: string)
    | CtrlC

  datatype Outcome = Exited(code: int) | MessagingStarted | AwaitingInput

  /** The outcome the inputs lead to: the first Ctrl+C or the first complete submission
      answered "OK", whichever comes first, decides; with neither, the form stays open. */
  function Expected(inputs: seq<FormInput>): (r: Outcome)
    decreases |inputs|
  {
    if inputs == [] then AwaitingInput
    else
      match inputs[0]
      case CtrlC => Exited(1)
      case Submit(u, p, k, _, reply) =>
        if u != "" && p != "" && k != "" && reply == "OK" then MessagingStarted else Expected(inputs[1..])
  }

  /** A submission with all three fields filled in, which the form acts on. */
  predicate Complete(x: FormInput) {
    x.Submit? && x.username != "" && x.password != "" && x.passphrase != ""
  }

  /** The request a submission makes: register on the "register" tab, log in otherwise. */
  function SubmittedRequest(x: FormInput, sha3: string -> string): (r: Request)
    requires x.Submit?
    ensures r.operation == Register <==> x.operation == "register"
    ensures r.username == x.username && r.pwHash == sha3(x.password)
  {
    Request(if x.operation == "register" then Register else Login, x.username, sha3(x.password))
  }

  /** The handshake exchanges the inputs cause, up to the input that decides the outcome. */
  function Attempts(inputs: seq<FormInput>, sha3: string -> string): (r: seq<Event>)
    decreases |inputs|
  {
    if inputs == [] then []
    else
      var x := inputs[0];
      if x.CtrlC? then []
      else if !Complete(x) then Attempts(inputs[1..], sha3)
      else Exchange(SubmittedRequest(x, sha3), x.reply) + (if x.reply == "OK" then [] else Attempts(inputs[1..], sha3))
  }

  /** The last complete submission before the outcome is decided, if any. */
  function LastSubmission(inputs: seq<FormInput>): (r: Option<FormInput>)
    ensures r.Some? ==> Complete(r.value)
    decreases |inputs|
  {
    if inputs == [] then None
    else
      var x := inputs[0];
      if x.CtrlC? then None
      else if !Complete(x) then LastSubmission(inputs[1..])
      else if x.reply == "OK" then Some(x)
      else
        match LastSubmission(inputs[1..])
        case None => Some(x)
        case Some(later) => Some(later)
  }

  /** The record with a submission's credentials and intent stored, as the form stores them. */
  function WithCredentials(s: UserState, last: Option<FormInput>, sha3: string -> string): (r: UserState)
    ensures last.None? || last.value.CtrlC? ==> r == s
    ensures last.Some? && last.value.Submit? ==>
      && r.username == last.value.username && r.pwHash == sha3(last.value.password)
      && r.encrKey == DeriveKey(last.value.passphrase) && r.doRegistration == (last.value.operation == "register")
      && r == s.(username := r.username, pwHash := r.pwHash, encrKey := r.encrKey, doRegistration := r.doRegistration)
  {
    match last
    case None => s
    case Some(x) =>
      if x.CtrlC? then s
      else s.(username := x.username, pwHash := sha3(x.password), encrKey := DeriveKey(x.passphrase),
              doRegistration := x.operation == "register")
  }

  ghost predicate NoChat(log: seq<Event>) {
    forall i :: 0 <= i < |log| ==> !IsChat(log[i])
  }

  /** From an idle connection, the attempts leave it authenticated exactly when the
      inputs lead to messaging, and idle otherwise. */
  lemma {:induction false} AttemptsConform(log: seq<Event>, inputs: seq<FormInput>, sha3: string -> string)
    requires WireRun(log) == Some(Idle)
    ensures WireRun(log + Attempts(inputs, sha3)) ==
      Some(if Expected(inputs) == MessagingStarted then Authenticated else Idle)
    decreases |inputs|
  {
    if inputs == [] || inputs[0].CtrlC? {
      assert log + Attempts(inputs, sha3) == log;
    } else if !Complete(inputs[0]) {
      AttemptsConform(log, inputs[1..], sha3);
    } else {
      var x := inputs[0];
      var ex := Exchange(SubmittedRequest(x, sha3), x.reply);
      ExchangeStep(log, SubmittedRequest(x, sha3), x.reply);
      if x.reply == "OK" {
        assert log + Attempts(inputs, sha3) == log + ex;
      } else {
        assert log + Attempts(inputs, sha3) == (log + ex) + Attempts(inputs[1..], sha3);
        AttemptsConform(log + ex, inputs[1..], sha3);
      }
    }
  }

  /** The attempts carry only handshake traffic. */
  lemma {:induction false} AttemptsNoChat(inputs: seq<FormInput>, sha3: string -> string)
    ensures NoChat(Attempts(inputs, sha3))
    decreases |inputs|
  {
    if inputs != [] && !inputs[0].CtrlC? {
      AttemptsNoChat(inputs[1..], sha3);
      if Complete(inputs[0]) {
        var x := inputs[0];
        var ex := Exchange(SubmittedRequest(x, sha3), x.reply);
        var rest := if x.reply == "OK" then [] else Attempts(inputs[1..], sha3);
        assert Attempts(inputs, sha3) == ex + rest;
        forall i | 0 <= i < |ex + rest| ensures !IsChat((ex + rest)[i]) {
          if i >= |ex| {
            assert (ex + rest)[i] == rest[i - |ex|];
          }
        }
      }
    }
  }

  /** When the inputs lead to messaging, the record holds the accepted submission's
      credentials, and the stored key is one Fernet accepts exactly when that
      submission's passphrase is ASCII and at most 32 characters. */
  lemma {:induction false} StartedKey(inputs: seq<FormInput>, sha3: string -> string, s0: UserState)
    requires Expected(inputs) == MessagingStarted
    ensures LastSubmission(inputs).Some?
    ensures var x := LastSubmission(inputs).value;
      && x.reply == "OK"
      && WithCredentials(s0, LastSubmission(inputs), sha3).encrKey == DeriveKey(x.passphrase)
      && (FernetKey(WithCredentials(s0, LastSubmission(inputs), sha3).encrKey) <==>
            IsAscii(x.passphrase) && |x.passphrase| <= KeyWidth)
    decreases |inputs|
  {
    var x := inputs[0];
    if !Complete(x) || x.reply != "OK" {
      StartedKey(inputs[1..], sha3, s0);
    }
    KeyUsableIff(LastSubmission(inputs).value.passphrase);
  }

  /** What holds after the form has handled the first `i` inputs, starting from record
      `s0`, with the record now `st`, the log `log` and the form in `status`. */
  ghost predicate FormSoFar(inputs: seq<FormInput>, i: nat, sha3: string -> string, s0: UserState,
                            status: FormStatus, st: UserState, log: seq<Event>)
    requires i <= |inputs|
  {
    var final := WithCredentials(s0, LastSubmission(inputs), sha3);
    && (status == Running ==>
          && Expected(inputs) == Expected(inputs[i..])
          && log + Attempts(inputs[i..], sha3) == [Connected] + Attempts(inputs, sha3)
          && WithCredentials(st, LastSubmission(inputs[i..]), sha3) == final)
    && (status == Succeeded ==>
          Expected(inputs) == MessagingStarted && st == final.(authed := true)
          && log == [Connected] + Attempts(inputs, sha3))
    && (status == Interrupted ==>
          Expected(inputs) == Exited(1) && st == final && log == [Connected] + Attempts(inputs, sha3))
  }

  /** Handling input `i` as the form does keeps `FormSoFar`. */
  lemma FormExtends(inputs: seq<FormInput>, i: nat, sha3: string -> string, s0: UserState,
                    st: UserState, log: seq<Event>, status': FormStatus, st': UserState, log': seq<Event>)
    requires i < |inputs| && !s0.authed && !s0.startAuthentication
    requires FormSoFar(inputs, i, sha3, s0, Running, st, log)
    requires inputs[i].CtrlC? ==> status' == Interrupted && st' == st && log' == log
    requires inputs[i].Submit? && !Complete(inputs[i]) ==> status' == Running && st' == st && log' == log
    requires Complete(inputs[i]) ==>
      && st' == WithCredentials(st, Some(inputs[i]), sha3).(startAuthentication := false, authed := inputs[i].reply == "OK")
      && log' == log + Exchange(SubmittedRequest(inputs[i], sha3), inputs[i].reply)
      && status' == if inputs[i].reply == "OK" then Succeeded else Running
    ensures FormSoFar(inputs, i + 1, sha3, s0, status', st', log')
  {
    var x := inputs[i];
    if x.CtrlC? {
      FormInterrupted(inputs, i, sha3, s0, st, log);
    } else if !Complete(x) {
      FormSkipped(inputs, i, sha3, s0, st, log);
    } else if x.reply == "OK" {
      FormAccepted(inputs, i, sha3, s0, st, log);
    } else {
      FormRejected(inputs, i, sha3, s0, st, log);
    }
  }

  /** The input after the first `i`, and what the reference functions make of it. */
  lemma Unfold(inputs: seq<FormInput>, i: nat, sha3: string -> string)
    requires i < |inputs|
    ensures var x, rest := inputs[i], inputs[i + 1..];
      && Expected(inputs[i..]) == (if x.CtrlC? then Exited(1)
                                   else if Complete(x) && x.reply == "OK" then MessagingStarted
                                   else Expected(rest))
      && Attempts(inputs[i..], sha3) == (if x.CtrlC? then []
                                        else if !Complete(x) then Attempts(rest, sha3)
                                        else Exchange(SubmittedRequest(x, sha3), x.reply) +
                                               (if x.reply == "OK" then [] else Attempts(rest, sha3)))
      && LastSubmission(inputs[i..]) == (if x.CtrlC? then None
                                        else if !Complete(x) then LastSubmission(rest)
                                        else if x.reply == "OK" || LastSubmission(rest).None? then Some(x)
                                        else LastSubmission(rest))
  {
    assert inputs[i..][0] == inputs[i] && inputs[i..][1..] == inputs[i + 1..];
  }

  lemma FormInterrupted(inputs: seq<FormInput>, i: nat, sha3: string -> string, s0: UserState,
                        st: UserState, log: seq<Event>)
    requires i < |inputs| && inputs[i].CtrlC?
    requires FormSoFar(inputs, i, sha3, s0, Running, st, log)
    ensures FormSoFar(inputs, i + 1, sha3, s0, Interrupted, st, log)
  {
    Unfold(inputs, i, sha3);
    assert log == log + [];
  }

  lemma FormSkipped(inputs: seq<FormInput>, i: nat, sha3: string -> string, s0: UserState,
                    st: UserState, log: seq<Event>)
    requires i < |inputs| && inputs[i].Submit? && !Complete(inputs[i])
    requires FormSoFar(inputs, i, sha3, s0, Running, st, log)
    ensures FormSoFar(inputs, i + 1, sha3, s0, Running, st, log)
  {
    Unfold(inputs, i, sha3);
  }

  lemma FormAccepted(inputs: seq<FormInput>, i: nat, sha3: string -> string, s0: UserState,
                     st: UserState, log: seq<Event>)
    requires i < |inputs| && Complete(inputs[i]) && inputs[i].reply == "OK"
    requires !s0.authed && !s0.startAuthentication
    requires FormSoFar(inputs, i, sha3, s0, Running, st, log)
    ensures FormSoFar(inputs, i + 1, sha3, s0, Succeeded,
                      WithCredentials(st, Some(inputs[i]), sha3).(startAuthentication := false, authed := true),
                      log + Exchange(SubmittedRequest(inputs[i], sha3), inputs[i].reply))
  {
    Unfold(inputs, i, sha3);
    var ex := Exchange(SubmittedRequest(inputs[i], sha3), inputs[i].reply);
    assert ex + [] == ex;
  }

  lemma FormRejected(inputs: seq<FormInput>, i: nat, sha3: string -> string, s0: UserState,
                     st: UserState, log: seq<Event>)
    requires i < |inputs| && Complete(inputs[i]) && inputs[i].reply != "OK"
    requires !s0.authed && !s0.startAuthentication
    requires FormSoFar(inputs, i, sha3, s0, Running, st, log)
    ensures FormSoFar(inputs, i + 1, sha3, s0, Running,
                      WithCredentials(st, Some(inputs[i]), sha3).(startAuthentication := false, authed := false),
                      log + Exchange(SubmittedRequest(inputs[i], sha3), inputs[i].reply))
  {
    Unfold(inputs, i, sha3);
    var ex := Exchange(SubmittedRequest(inputs[i], sha3), inputs[i].reply);
    var rest := Attempts(inputs[i + 1..], sha3);
    assert log + (ex + rest) == (log + ex) + rest;
  }

  /** Once the form has closed or the inputs have run out, the record, the log and the
      outcome are the ones the reference functions give. */
  lemma FormDone(inputs: seq<FormInput>, i: nat, sha3: string -> string, s0: UserState,
                 status: FormStatus, st: UserState, log: seq<Event>)
    requires i <= |inputs| && (status == Running ==> i == |inputs|) && !s0.authed
    requires FormSoFar(inputs, i, sha3, s0, status, st, log)
    ensures Expected(inputs) == match status
      case Running => AwaitingInput case Succeeded => MessagingStarted case Interrupted => Exited(1)
    ensures st == WithCredentials(s0, LastSubmission(inputs), sha3).(authed := status == Succeeded)
    ensures log == [Connected] + Attempts(inputs, sha3)
    ensures WireRun(log) == Some(if status == Succeeded then Authenticated else Idle)
    ensures NoChat(log)
  {
    if status == Running {
      assert inputs[i..] == [];
      assert log + [] == log;
    }
    AttemptsConform([Connected], inputs, sha3);
    var a := Attempts(inputs, sha3);
    AttemptsNoChat(inputs, sha3);
    forall k | 0 <= k < |log| ensures !IsChat(log[k]) {
      if k > 0 {
        assert log[k] == a[k - 1];
      }
    }
  }

  /** The form handles input `i`: Ctrl+C or a submission. */
  method HandleInput(form: LoginTUI, inputs: seq<FormInput>, i: nat, sha3: string -> string, ghost s0: UserState)
    requires i < |inputs| && form.status == Running && form.client.sock.connected
    requires !s0.authed && !s0.startAuthentication
    requires FormSoFar(inputs, i, sha3, s0, Running, form.client.user.State(), form.client.sock.log)
    modifies form, form.client.user, form.client.sock
    ensures form.client.sock.connected
    ensures FormSoFar(inputs, i + 1, sha3, s0, form.status, form.client.user.State(), form.client.sock.log)
  {
    ghost var st, log := form.client.user.State(), form.client.sock.log;
    match inputs[i] {
      case CtrlC =>
        form.ActionExit();
      case Submit(username, password, passphrase, operation, reply) =>
        form.SubmitUserCredentials(username, password, passphrase, operation, reply, sha3);
    }
    FormExtends(inputs, i, sha3, s0, st, log, form.status, form.client.user.State(), form.client.sock.log);
  }

  /** `start`: connect, authenticate through the login form, then start messaging.
      Messaging starts exactly when an attempt was answered "OK", and after Ctrl+C the
      client exits with code 1. The record ends up holding the last complete
      submission's credentials, and the log holds the connection followed by exactly
      one exchange per complete submission up to the deciding one. */
  method Start(client: Client, inputs: seq<FormInput>, sha3: string -> string) returns (outcome: Outcome)
    requires !client.sock.connected && client.sock.log == [] && !client.messaging
    requires !client.user.authed && !client.user.startAuthentication
    modifies client, client.user, client.sock
    ensures outcome == Expected(inputs)
    ensures client.messaging <==> outcome == MessagingStarted
    ensures client.user.State() ==
      WithCredentials(old(client.user.State()), LastSubmission(inputs), sha3).(authed := outcome == MessagingStarted)
    ensures client.sock.connected && client.sock.log == [Connected] + Attempts(inputs, sha3)
    ensures WireRun(client.sock.log) == Some(if outcome == MessagingStarted then Authenticated else Idle)
    ensures NoChat(client.sock.log)
  {
    ghost var s0 := client.user.State();
    client.Connect();
    var form := new LoginTUI(client);
    var i := 0;
    assert inputs[0..] == inputs;
    while i < |inputs| && form.status == Running
      invariant 0 <= i <= |inputs|
      invariant client.sock.connected && !client.messaging
      invariant FormSoFar(inputs, i, sha3, s0, form.status, client.user.State(), client.sock.log)
      decreases |inputs| - i
    {
      HandleInput(form, inputs, i, sha3, s0);
      i := i + 1;
    }
    FormDone(inputs, i, sha3, s0, form.status, client.user.State(), client.sock.log);
    if form.status == Interrupted {
      return Exited(1);
    }
    if form.status == Running {
      return AwaitingInput;
    }
    client.InitMessaging();
    outcome := MessagingStarted;
  }

  /** One atomic step of the messaging phase: the user enters a chat line (the chat
      window appends it to tx), the send thread makes a pass, the receive thread reads
      a frame, or the chat window's update task writes rx to the screen and empties it. */
  datatype ChatEvent = Typed(text: string) | SendPass | Arrived(frame: ChatFrame) | Drained

  /** The chat lines entered, in order. */
  function TypedTexts(schedule: seq<ChatEvent>): (r: seq<string>)
    decreases |schedule|
  {
    if schedule == [] then []
    else
      var e := schedule[|schedule| - 1];
      TypedTexts(schedule[..|schedule| - 1]) + (if e.Typed? then [e.text] else [])
  }

  /** The frames read, in order. */
  function Arrivals(schedule: seq<ChatEvent>): (r: seq<ChatFrame>)
    decreases |schedule|
  {
    if schedule == [] then []
    else
      var e := schedule[|schedule| - 1];
      Arrivals(schedule[..|schedule| - 1]) + (if e.Arrived? then [e.frame] else [])
  }

  /** The chat lines one step adds to tx. */
  function TypedBy(e: ChatEvent): (r: seq<string>) {
    if e.Typed? then [e.text] else []
  }

  /** The frames one step reads. */
  function ArrivedBy(e: ChatEvent): (r: seq<ChatFrame>) {
    if e.Arrived? then [e.frame] else []
  }

  /** If a + b == c + d and d + e == f + g then a + (b + e) == (c + f) + g. */
  lemma Regroup<T>(a: seq<T>, b: seq<T>, e: seq<T>, c: seq<T>, d: seq<T>, f: seq<T>, g: seq<T>)
    requires a + b == c + d && d + e == f + g
    ensures a + (b + e) == (c + f) + g
  {
    calc {
      a + (b + e);
      (a + b) + e;
      (c + d) + e;
      c + (d + e);
      c + (f + g);
    }
  }

  lemma SchedulePrefix(schedule: seq<ChatEvent>, i: nat)
    requires i < |schedule|
    ensures TypedTexts(schedule[..i + 1]) == TypedTexts(schedule[..i]) + TypedBy(schedule[i])
    ensures Arrivals(schedule[..i + 1]) == Arrivals(schedule[..i]) + ArrivedBy(schedule[i])
  {
    assert schedule[..i + 1][..i] == schedule[..i];
  }

  /** One step of the messaging phase. `sent` is what a send pass put on the wire and
      `shown` what the chat window wrote to the screen. An entered line is only queued;
      a send pass sends all of tx and empties it; a frame read only touches rx; an
      update of the chat window shows all of rx and empties it. */
  method MessagingStep(client: Client, e: ChatEvent, key: Key, cipher: Cipher)
    returns (ghost sent: seq<string>, shown: seq<string>)
    requires client.messaging && client.sock.connected && FernetKey(key)
    requires WireRun(client.sock.log) == Some(Authenticated)
    modifies client.user, client.sock
    ensures client.sock.connected
    ensures WireRun(client.sock.log) == Some(Authenticated)
    ensures old(client.user.txBuffer) + TypedBy(e) == sent + client.user.txBuffer
    ensures ChatTokens(client.sock.log) == ChatTokens(old(client.sock.log)) + EncryptAll(cipher, sent, key)
    ensures old(client.user.rxBuffer) + DisplayLines(cipher, ArrivedBy(e), key) == shown + client.user.rxBuffer
    ensures client.user.State() == old(client.user.State()).(tx := client.user.txBuffer, rx := client.user.rxBuffer)
    ensures e.SendPass? ==> sent == old(client.user.txBuffer) && client.user.txBuffer == []
    ensures !e.SendPass? ==> sent == []
    ensures e.Drained? ==> shown == old(client.user.rxBuffer) && client.user.rxBuffer == []
    ensures !e.Drained? ==> shown == []
    ensures e.Typed? || e.Drained? ==> client.sock.log == old(client.sock.log)
    ensures e.Arrived? ==> client.sock.log == old(client.sock.log) + [Received(Frame(e.frame))]
  {
    sent, shown := [], [];
    match e
    case Typed(text) =>
      client.user.AddToTxMessageBuffer(text);
      assert client.sock.log == old(client.sock.log);
    case SendPass =>
      sent := SendPassStep(client, key, cipher);
    case Arrived(frame) =>
      client.ReceiveStep(frame, key, cipher);
      assert client.sock.log[..|client.sock.log| - 1] == old(client.sock.log);
      assert [frame][..0] == [];
    case Drained =>
      shown := client.user.GetRxMessageBuffer();
      if shown != [] {
        client.user.ClearRxMessageBuffer();
      }
      assert shown + client.user.rxBuffer == old(client.user.rxBuffer) + [];
  }

  /** A pass of the send thread during messaging: all of tx goes on the wire as chat
      tokens, in order, and the connection stays authenticated. */
  method SendPassStep(client: Client, key: Key, cipher: Cipher) returns (ghost sent: seq<string>)
    requires client.sock.connected && FernetKey(key)
    requires WireRun(client.sock.log) == Some(Authenticated)
    modifies client.user, client.sock
    ensures client.sock.connected
    ensures WireRun(client.sock.log) == Some(Authenticated)
    ensures sent == old(client.user.txBuffer) && client.user.State() == old(client.user.State()).(tx := [])
    ensures ChatTokens(client.sock.log) == ChatTokens(old(client.sock.log)) + EncryptAll(cipher, sent, key)
  {
    sent := client.user.txBuffer;
    client.SendStep(key, cipher);
    ChatTokensOfSends(old(client.sock.log), EncryptAll(cipher, sent, key));
    SendsKeepAuthenticated(old(client.sock.log), EncryptAll(cipher, sent, key));
  }

  /** What holds after the first `i` steps of a messaging run that started with chat
      tokens `tokens0` and record `state0`, having sent `sent` and shown `shown`, when
      the record is now `st` and the log `log`. */
  ghost predicate RunSoFar(schedule: seq<ChatEvent>, i: nat, key: Key, cipher: Cipher,
                           tokens0: seq<Token>, state0: UserState, sent: seq<string>, shown: seq<string>,
                           st: UserState, log: seq<Event>)
    requires i <= |schedule|
  {
    && WireRun(log) == Some(Authenticated)
    && state0.tx + TypedTexts(schedule[..i]) == sent + st.tx
    && ChatTokens(log) == tokens0 + EncryptAll(cipher, sent, key)
    && state0.rx + DisplayLines(cipher, Arrivals(schedule[..i]), key) == shown + st.rx
    && st == state0.(tx := st.tx, rx := st.rx)
  }

  /** A step that does what `MessagingStep` promises extends a run by one event. */
  lemma {:induction false} RunExtends(schedule: seq<ChatEvent>, i: nat, key: Key, cipher: Cipher,
                                      tokens0: seq<Token>, state0: UserState, sent: seq<string>,
                                      shown: seq<string>, st: UserState, log: seq<Event>,
                                      step: seq<string>, stepShown: seq<string>,
                                      st': UserState, log': seq<Event>)
    requires i < |schedule|
    requires RunSoFar(schedule, i, key, cipher, tokens0, state0, sent, shown, st, log)
    requires WireRun(log') == Some(Authenticated)
    requires st.tx + TypedBy(schedule[i]) == step + st'.tx
    requires ChatTokens(log') == ChatTokens(log) + EncryptAll(cipher, step, key)
    requires st.rx + DisplayLines(cipher, ArrivedBy(schedule[i]), key) == stepShown + st'.rx
    requires st' == st.(tx := st'.tx, rx := st'.rx)
    ensures RunSoFar(schedule, i + 1, key, cipher, tokens0, state0, sent + step, shown + stepShown, st', log')
  {
    TxExtends(schedule, i, state0.tx, sent, st.tx, step, st'.tx);
    TokensExtend(cipher, key, tokens0, sent, step, ChatTokens(log));
    RxExtends(schedule, i, key, cipher, state0.rx, shown, st.rx, stepShown, st'.rx);
  }

  /** The entered lines stay accounted for, sent or waiting, over one more step. */
  lemma TxExtends(schedule: seq<ChatEvent>, i: nat, tx0: seq<string>, sent: seq<string>,
                  tx: seq<string>, step: seq<string>, tx': seq<string>)
    requires i < |schedule|
    requires tx0 + TypedTexts(schedule[..i]) == sent + tx
    requires tx + TypedBy(schedule[i]) == step + tx'
    ensures tx0 + TypedTexts(schedule[..i + 1]) == (sent + step) + tx'
  {
    SchedulePrefix(schedule, i);
    Regroup(tx0, TypedTexts(schedule[..i]), TypedBy(schedule[i]), sent, tx, step, tx');
  }

  /** The tokens on the wire stay the sent lines encrypted, over one more send pass. */
  lemma TokensExtend(cipher: Cipher, key: Key, tokens0: seq<Token>, sent: seq<string>, step: seq<string>,
                     tokens: seq<Token>)
    requires tokens == tokens0 + EncryptAll(cipher, sent, key)
    ensures tokens + EncryptAll(cipher, step, key) == tokens0 + EncryptAll(cipher, sent + step, key)
  {
    EncryptAllAppend(cipher, sent, step, key);
  }

  /** The display lines of the frames read stay accounted for, shown or waiting in rx,
      over one more step. */
  lemma RxExtends(schedule: seq<ChatEvent>, i: nat, key: Key, cipher: Cipher, rx0: seq<string>,
                  shown: seq<string>, rx: seq<string>, stepShown: seq<string>, rx': seq<string>)
    requires i < |schedule|
    requires rx0 + DisplayLines(cipher, Arrivals(schedule[..i]), key) == shown + rx
    requires rx + DisplayLines(cipher, ArrivedBy(schedule[i]), key) == stepShown + rx'
    ensures rx0 + DisplayLines(cipher, Arrivals(schedule[..i + 1]), key) == (shown + stepShown) + rx'
  {
    var earlier, latest := Arrivals(schedule[..i]), ArrivedBy(schedule[i]);
    SchedulePrefix(schedule, i);
    DisplayLinesAppend(cipher, earlier, latest, key);
    Regroup(rx0, DisplayLines(cipher, earlier, key), DisplayLines(cipher, latest, key), shown, rx, stepShown, rx');
  }

  /** The messaging phase run for a schedule, with the key both threads read when they
      started. Every line entered is, in entry order, either sent (`sent`) or still
      waiting in tx; the tokens on the wire are the sent lines encrypted one frame each
      in that order; the display lines of the frames that decrypt are, in arrival order,
      either on the screen (`shown`) or still waiting in rx; the connection stays in
      the authenticated phase; nothing else in the record changes. A run that ends with
      a send pass has sent every line, and one that ends with an update of the chat
      window has shown every display line. */
  method Messaging(client: Client, schedule: seq<ChatEvent>, cipher: Cipher)
    returns (ghost sent: seq<string>, shown: seq<string>)
    requires client.messaging && client.sock.connected && FernetKey(client.user.encrKey)
    requires WireRun(client.sock.log) == Some(Authenticated)
    modifies client.user, client.sock
    ensures WireRun(client.sock.log) == Some(Authenticated)
    ensures old(client.user.txBuffer) + TypedTexts(schedule) == sent + client.user.txBuffer
    ensures ChatTokens(client.sock.log) ==
      ChatTokens(old(client.sock.log)) + EncryptAll(cipher, sent, old(client.user.encrKey))
    ensures old(client.user.rxBuffer) + DisplayLines(cipher, Arrivals(schedule), old(client.user.encrKey)) ==
      shown + client.user.rxBuffer
    ensures client.user.State() == old(client.user.State()).(tx := client.user.txBuffer, rx := client.user.rxBuffer)
    ensures |schedule| > 0 && schedule[|schedule| - 1].SendPass? ==>
      client.user.txBuffer == [] && sent == old(client.user.txBuffer) + TypedTexts(schedule)
    ensures |schedule| > 0 && schedule[|schedule| - 1].Drained? ==>
      client.user.rxBuffer == [] &&
      shown == old(client.user.rxBuffer) + DisplayLines(cipher, Arrivals(schedule), old(client.user.encrKey))
  {
    var key := client.user.GetEncrKey();
    ghost var tokens0, state0 := ChatTokens(client.sock.log), client.user.State();
    sent, shown := [], [];
    assert schedule[..0] == [];
    for i := 0 to |schedule|
      invariant client.messaging && client.sock.connected && client.user.encrKey == key
      invariant RunSoFar(schedule, i, key, cipher, tokens0, state0, sent, shown, client.user.State(), client.sock.log)
      invariant i > 0 && schedule[i - 1].SendPass? ==> client.user.txBuffer == []
      invariant i > 0 && schedule[i - 1].Drained? ==> client.user.rxBuffer == []
    {
      ghost var st, log := client.user.State(), client.sock.log;
      var step, stepShown := MessagingStep(client, schedule[i], key, cipher);
      RunExtends(schedule, i, key, cipher, tokens0, state0, sent, shown, st, log, step, stepShown,
                 client.user.State(), client.sock.log);
      sent, shown := sent + step, shown + stepShown;
    }
    assert schedule[..|schedule|] == schedule;
    assert sent + [] == sent && shown + [] == shown;
  }
}
