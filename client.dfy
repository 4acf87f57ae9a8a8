/**
 * The client side of the chat protocol (client.py): the handshake request records,
 * the authentication step, the send step that drains the tx buffer onto the
 * connection and the receive step that decrypts one frame into the rx buffer.
 *
 * The socket is a log of the events on the connection. What a `recv` returns is an
 * input of the step that reads it (the server's reply, the frame that arrived).
 * Fernet and SHA3-512 are foreign: they enter as function-valued parameters.
 */
module Protocol {
  import opened Optional
  import opened Encoding
  import opened Session

  /** A Fernet token, as the text the cipher produces. */
  type Token = string

  /** Fernet encryption and decryption under a key (`__encrypt_message`,
      `__decrypt_message`); decryption yields None where Fernet raises InvalidToken
      (wrong key, damaged or malformed token). */
  datatype Cipher = Cipher(encrypt: (string, Key) -> Token, decrypt: (Token, Key) -> Option<string>)

  /** What `Fernet(key)` accepts: a key whose Base64 decoding is 32 bytes. It raises
      ValueError on any other key, and no caller catches that. */
  predicate FernetKey(key: Key)
    ensures FernetKey(key) ==> |key| == 44 && TrailingPad(key) == 1
  {
    match Base64Decode(key)
    case Some(raw) => DecodedLength(key); |raw| == 32
    case None => false
  }

  /** The derived key is usable by Fernet exactly when the passphrase is ASCII and at
      most 32 characters long: a longer passphrase is not truncated, and a non-ASCII
      character takes more than one byte, so either way the key decodes to more than
      32 bytes. */
  lemma KeyUsableIff(passphrase: string)
    ensures FernetKey(DeriveKey(passphrase)) <==> IsAscii(passphrase) && |passphrase| <= KeyWidth
  {
    KeyDecodes(passphrase);
    PaddedBytes32(passphrase);
  }

  // ------------------------------------------------------------ wire records

  datatype Operation = Login | Register

  /** The handshake request: operation, username and password hash. It has no field
      for the key, which never leaves the client. */
  datatype Request = Request(operation: Operation, username: string, pwHash: string)

  /** The JSON object the request is sent as (`user_data`). */
  function RequestRecord(r: Request): (m: map<string, string>)
    ensures m.Keys == {"operation", "username", "pw_hash"}
    ensures m["operation"] == "register" <==> r.operation == Register
    ensures m["operation"] == "login" <==> r.operation == Login
    ensures m["username"] == r.username && m["pw_hash"] == r.pwHash
  {
    var op := match r.operation case Login => "login" case Register => "register";
    map["operation" := op, "username" := r.username, "pw_hash" := r.pwHash]
  }

  /** The request `__authenticate_user` sends for the record's current state. */
  function AuthRequest(s: UserState): (r: Request)
    ensures r.operation == Register <==> s.doRegistration
    ensures r.username == s.username && r.pwHash == s.pwHash
  {
    if s.doRegistration then Request(Register, s.username, s.pwHash)
    else Request(Login, s.username, s.pwHash)
  }

  /** An inbound chat frame: the sender's name and the token of their message. */
  datatype ChatFrame = ChatFrame(username: string, message: Token)

  datatype Packet = RequestPacket(request: Request) | TokenPacket(token: Token)
  datatype Incoming = Feedback(text: string) | Frame(frame: ChatFrame)
  datatype Event = Connected | Sent(packet: Packet) | Received(incoming: Incoming)

  /** One handshake exchange: the request, then the server's reply. */
  function Exchange(r: Request, reply: string): (ex: seq<Event>) {
    [Sent(RequestPacket(r)), Received(Feedback(reply))]
  }

  /** Chat traffic, as opposed to handshake traffic. */
  predicate IsChat(e: Event) {
    (e.Sent? && e.packet.TokenPacket?) || (e.Received? && e.incoming.Frame?)
  }

  // ---------------------------------------------------- sequence projections

  /** The events of sending the tokens, one frame each, in order. */
  function TokenEvents(ts: seq<Token>): (r: seq<Event>)
    ensures |r| == |ts|
    decreases |ts|
  {
    if ts == [] then [] else TokenEvents(ts[..|ts| - 1]) + [Sent(TokenPacket(ts[|ts| - 1]))]
  }

  /** The tokens sent on the connection, in order. */
  function ChatTokens(log: seq<Event>): (r: seq<Token>)
    decreases |log|
  {
    if log == [] then []
    else
      var e := log[|log| - 1];
      ChatTokens(log[..|log| - 1]) + (if e.Sent? && e.packet.TokenPacket? then [e.packet.token] else [])
  }

  /** Each message encrypted under the key, in order. */
  function EncryptAll(cipher: Cipher, msgs: seq<string>, key: Key): (r: seq<Token>)
    ensures |r| == |msgs|
    decreases |msgs|
  {
    if msgs == [] then []
    else EncryptAll(cipher, msgs[..|msgs| - 1], key) + [cipher.encrypt(msgs[|msgs| - 1], key)]
  }

  /** The display lines the frames produce: `"<sender>: <plaintext>"` for each frame that
      decrypts, in arrival order; frames that do not decrypt are dropped. */
  function DisplayLines(cipher: Cipher, frames: seq<ChatFrame>, key: Key): (r: seq<string>)
    ensures |r| <= |frames|
    decreases |frames|
  {
    if frames == [] then []
    else
      var f := frames[|frames| - 1];
      DisplayLines(cipher, frames[..|frames| - 1], key) +
        match cipher.decrypt(f.message, key)
        case None => []
        case Some(p) => [f.username + ": " + p]
  }

  /** Token i is message i encrypted under the key. */
  lemma {:induction false} EncryptAllEach(cipher: Cipher, msgs: seq<string>, key: Key)
    ensures forall i :: 0 <= i < |msgs| ==> EncryptAll(cipher, msgs, key)[i] == cipher.encrypt(msgs[i], key)
    decreases |msgs|
  {
    if msgs != [] {
      var init := msgs[..|msgs| - 1];
      EncryptAllEach(cipher, init, key);
      forall i | 0 <= i < |init| ensures EncryptAll(cipher, msgs, key)[i] == cipher.encrypt(msgs[i], key) {
        assert init[i] == msgs[i];
      }
    }
  }

  /** Sending one more buffered message adds its token's frame to the log. */
  lemma SendOneMore(cipher: Cipher, msgs: seq<string>, i: nat, key: Key)
    requires i < |msgs|
    ensures TokenEvents(EncryptAll(cipher, msgs[..i + 1], key))
      == TokenEvents(EncryptAll(cipher, msgs[..i], key)) + [Sent(TokenPacket(cipher.encrypt(msgs[i], key)))]
  {
    assert msgs[..i + 1][..i] == msgs[..i];
  }

  lemma {:induction false} EncryptAllAppend(cipher: Cipher, a: seq<string>, b: seq<string>, key: Key)
    ensures EncryptAll(cipher, a + b, key) == EncryptAll(cipher, a, key) + EncryptAll(cipher, b, key)
    decreases |b|
  {
    if b == [] {
      assert a + b == a;
    } else {
      assert (a + b)[..|a + b| - 1] == a + b[..|b| - 1];
      EncryptAllAppend(cipher, a, b[..|b| - 1], key);
    }
  }

  /** Frames none of which decrypt show nothing; frames that all decrypt show one line
      each, `"<sender>: <plaintext>"`, in arrival order. */
  lemma {:induction false} DisplayLinesAll(cipher: Cipher, frames: seq<ChatFrame>, key: Key)
    ensures (forall i :: 0 <= i < |frames| ==> cipher.decrypt(frames[i].message, key).None?) ==>
      DisplayLines(cipher, frames, key) == []
    ensures (forall i :: 0 <= i < |frames| ==> cipher.decrypt(frames[i].message, key).Some?) ==>
      |DisplayLines(cipher, frames, key)| == |frames| &&
      forall i :: 0 <= i < |frames| ==>
        DisplayLines(cipher, frames, key)[i] == frames[i].username + ": " + cipher.decrypt(frames[i].message, key).value
    decreases |frames|
  {
    if frames != [] {
      var init := frames[..|frames| - 1];
      DisplayLinesAll(cipher, init, key);
      forall i | 0 <= i < |init| ensures init[i] == frames[i] { }
    }
  }

  lemma {:induction false} DisplayLinesAppend(cipher: Cipher, a: seq<ChatFrame>, b: seq<ChatFrame>, key: Key)
    ensures DisplayLines(cipher, a + b, key) == DisplayLines(cipher, a, key) + DisplayLines(cipher, b, key)
    decreases |b|
  {
    if b == [] {
      assert a + b == a;
    } else {
      assert (a + b)[..|a + b| - 1] == a + b[..|b| - 1];
      DisplayLinesAppend(cipher, a, b[..|b| - 1], key);
    }
  }

  /** Sending tokens adds exactly those tokens to the wire, after the earlier ones. */
  lemma {:induction false} ChatTokensOfSends(log: seq<Event>, ts: seq<Token>)
    ensures ChatTokens(log + TokenEvents(ts)) == ChatTokens(log) + ts
    decreases |ts|
  {
    if ts == [] {
      assert log + TokenEvents(ts) == log;
    } else {
      var init := ts[..|ts| - 1];
      assert log + TokenEvents(ts) == (log + TokenEvents(init)) + [Sent(TokenPacket(ts[|ts| - 1]))];
      ChatTokensOfSends(log, init);
      assert init + [ts[|ts| - 1]] == ts;
    }
  }

  // ----------------------------------------------------------- wire protocol

  /** Where the connection stands: not yet connected, connected and waiting for a
      request, a request in flight, or authenticated (chat traffic allowed). */
  datatype WirePhase = Unconnected | Idle | InFlight | Authenticated

  /** The protocol's transitions: connect once, then alternate one request and one
      reply until the reply is exactly "OK", then only chat frames. */
  function WireStep(p: WirePhase, e: Event): (r: Option<WirePhase>) {
    match (p, e)
    case (Unconnected, Connected) => Some(Idle)
    case (Idle, Sent(RequestPacket(_))) => Some(InFlight)
    case (InFlight, Received(Feedback(reply))) => Some(if reply == "OK" then Authenticated else Idle)
    case (Authenticated, Sent(TokenPacket(_))) => Some(Authenticated)
    case (Authenticated, Received(Frame(_))) => Some(Authenticated)
    case _ => None
  }

  /** The phase a log leads to, or None if the log breaks the protocol. */
  function WireRun(log: seq<Event>): (r: Option<WirePhase>)
    decreases |log|
  {
    if log == [] then Some(Unconnected)
    else
      match WireRun(log[..|log| - 1])
      case None => None
      case Some(p) => WireStep(p, log[|log| - 1])
  }

  /** Every prefix of a conforming log conforms. */
  lemma {:induction false} WireRunPrefix(log: seq<Event>, k: nat)
    requires k <= |log| && WireRun(log).Some?
    ensures WireRun(log[..k]).Some?
    decreases |log|
  {
    if k < |log| {
      assert log[..|log| - 1][..k] == log[..k];
      WireRunPrefix(log[..|log| - 1], k);
    } else {
      assert log[..k] == log;
    }
  }

  /** The connection is authenticated only if the server has answered exactly "OK". */
  lemma {:induction false} AuthenticatedOnlyAfterOk(log: seq<Event>)
    requires WireRun(log) == Some(Authenticated)
    ensures Received(Feedback("OK")) in log
    decreases |log|
  {
    var init := log[..|log| - 1];
    var e := log[|log| - 1];
    assert log == init + [e];
    if WireRun(init) == Some(Authenticated) {
      AuthenticatedOnlyAfterOk(init);
    }
  }

  /** No chat frame is sent or read before the server has answered "OK". */
  lemma ChatOnlyAfterOk(log: seq<Event>, i: nat)
    requires WireRun(log).Some? && i < |log| && IsChat(log[i])
    ensures Received(Feedback("OK")) in log[..i]
  {
    WireRunPrefix(log, i + 1);
    assert log[..i + 1][..i] == log[..i];
    assert WireRun(log[..i]) == Some(Authenticated);
    AuthenticatedOnlyAfterOk(log[..i]);
  }

  /** A request is always followed directly by its reply: at most one handshake
      exchange is in flight at a time. */
  lemma RequestThenReply(log: seq<Event>, i: nat)
    requires WireRun(log).Some? && i + 1 < |log|
    requires log[i].Sent? && log[i].packet.RequestPacket?
    ensures log[i + 1].Received? && log[i + 1].incoming.Feedback?
  {
    WireRunPrefix(log, i + 2);
    var l := log[..i + 2];
    assert l[..i + 1][..i] == log[..i] && l[..i + 1][i] == log[i];
    assert WireRun(l[..i + 1]) == Some(InFlight);
  }

  /** A handshake exchange from Idle leads to Authenticated on "OK", else back to Idle. */
  lemma ExchangeStep(log: seq<Event>, r: Request, reply: string)
    requires WireRun(log) == Some(Idle)
    ensures WireRun(log + Exchange(r, reply)) == Some(if reply == "OK" then Authenticated else Idle)
  {
    var l := log + Exchange(r, reply);
    assert l[..|l| - 1][..|log|] == log;
  }

  /** Sending tokens keeps an authenticated connection authenticated. */
  lemma {:induction false} SendsKeepAuthenticated(log: seq<Event>, ts: seq<Token>)
    requires WireRun(log) == Some(Authenticated)
    ensures WireRun(log + TokenEvents(ts)) == Some(Authenticated)
    decreases |ts|
  {
    if ts == [] {
      assert log + TokenEvents(ts) == log;
    } else {
      var init := ts[..|ts| - 1];
      var l := log + TokenEvents(ts);
      assert l[..|l| - 1] == log + TokenEvents(init);
      SendsKeepAuthenticated(log, init);
    }
  }

  // ------------------------------------------------------------- the socket

  /** The client's TCP socket, seen as the sequence of events on it. */
  class Socket {
    var connected: bool
    var log: seq<Event>

    constructor ()
      ensures !connected && log == []
    {
      connected, log := false, [];
    }

    method Connect()
      requires !connected
      modifies this
      ensures connected && log == old(log) + [Connected]
    {
      connected, log := true, log + [Connected];
    }

    method Send(p: Packet)
      requires connected
      modifies this
      ensures connected && log == old(log) + [Sent(p)]
    {
      log := log + [Sent(p)];
    }

    /** Reads one unit; `arrived` is what the peer sent. */
    method Recv(arrived: Incoming) returns (data: Incoming)
      requires connected
      modifies this
      ensures data == arrived
      ensures connected && log == old(log) + [Received(arrived)]
    {
      log := log + [Received(arrived)];
      data := arrived;
    }
  }

  // ------------------------------------------------------------- the client

  class Client {
    const user: User
    const sock: Socket
    /** Whether the send and receive threads have been started. */
    var messaging: bool

    constructor (user: User)
      ensures this.user == user && fresh(sock)
      ensures !sock.connected && sock.log == [] && !messaging
    {
      this.user := user;
      sock := new Socket();
      messaging := false;
    }

    /** One successful `connect`; the retries on refusal are not modelled. */
    method Connect()
      requires !sock.connected
      modifies sock
      ensures sock.connected && sock.log == old(sock.log) + [Connected]
    {
      sock.Connect();
    }

    method DoLogin(username: string, pwHash: string, reply: string) returns (feedback: string)
      requires sock.connected
      modifies sock
      ensures feedback == reply
      ensures sock.connected && sock.log == old(sock.log) + Exchange(Request(Login, username, pwHash), reply)
    {
      sock.Send(RequestPacket(Request(Login, username, pwHash)));
      var data := sock.Recv(Feedback(reply));
      feedback := data.text;
    }

    method DoRegistration(username: string, pwHash: string, reply: string) returns (feedback: string)
      requires sock.connected
      modifies sock
      ensures feedback == reply
      ensures sock.connected && sock.log == old(sock.log) + Exchange(Request(Register, username, pwHash), reply)
    {
      sock.Send(RequestPacket(Request(Register, username, pwHash)));
      var data := sock.Recv(Feedback(reply));
      feedback := data.text;
    }

    /** Sends the registration or login request for the stored credentials and
        returns the server's reply. */
    method AuthenticateUser(reply: string) returns (feedback: string)
      requires sock.connected
      modifies sock
      ensures feedback == reply
      ensures sock.connected && sock.log == old(sock.log) + Exchange(AuthRequest(user.State()), reply)
    {
      var username := user.GetUsername();
      var pwHash := user.GetPwHash();
      var register := user.GetDoRegistration();
      if register {
        feedback := DoRegistration(username, pwHash, reply);
      } else {
        feedback := DoLogin(username, pwHash, reply);
      }
    }

    /** One pass of the authentication thread's loop, once the form has raised
        `start_authentication`: one exchange, `authed` set from the reply being
        exactly "OK", and the request flag lowered whatever the outcome. */
    method AuthenticationAttempt(reply: string)
      requires sock.connected && !user.authed && user.startAuthentication
      modifies user, sock
      ensures user.State() == old(user.State()).(authed := reply == "OK", startAuthentication := false)
      ensures sock.connected && sock.log == old(sock.log) + Exchange(AuthRequest(old(user.State())), reply)
    {
      var feedback := AuthenticateUser(reply);
      if feedback == "OK" {
        user.SetAuthed(true);
      } else {
        user.SetAuthed(false);
      }
      user.SetStartAuthentication(false);
    }

    /** One pass of the send thread's loop: nothing when the tx buffer is empty;
        otherwise each buffered message is encrypted and sent as its own frame, in
        buffer order, and the buffer is then cleared. `key` is the key the thread
        read when it started. */
    method SendStep(key: Key, cipher: Cipher)
      requires sock.connected && FernetKey(key)
      modifies user, sock
      ensures user.State() == old(user.State()).(tx := [])
      ensures sock.connected
      ensures sock.log == old(sock.log) + TokenEvents(EncryptAll(cipher, old(user.txBuffer), key))
    {
      var buffer := user.GetTxMessageBuffer();
      if buffer == [] {
        return;
      }
      SendEach(buffer, key, cipher);
      user.ClearTxMessageBuffer();
    }

    /** The loop over the buffered messages: each is encrypted and sent as its own
        frame, in order. */
    method SendEach(buffer: seq<string>, key: Key, cipher: Cipher)
      requires sock.connected
      modifies sock
      ensures sock.connected
      ensures sock.log == old(sock.log) + TokenEvents(EncryptAll(cipher, buffer, key))
    {
      for i := 0 to |buffer|
        invariant sock.connected
        invariant sock.log == old(sock.log) + TokenEvents(EncryptAll(cipher, buffer[..i], key))
      {
        var token := cipher.encrypt(buffer[i], key);
        sock.Send(TokenPacket(token));
        SendOneMore(cipher, buffer, i, key);
      }
      assert buffer[..|buffer|] == buffer;
    }

    /** One pass of the receive thread's loop: read one frame; if its message does
        not decrypt it is dropped, otherwise `"<sender>: <plaintext>"` is appended to
        rx, the sender's name taken from the frame. */
    method ReceiveStep(frame: ChatFrame, key: Key, cipher: Cipher)
      requires sock.connected && FernetKey(key)
      modifies user, sock
      ensures cipher.decrypt(frame.message, key).None? ==> user.State() == old(user.State())
      ensures cipher.decrypt(frame.message, key).Some? ==>
        user.State() == old(user.State()).(rx := old(user.rxBuffer) + [frame.username + ": " + cipher.decrypt(frame.message, key).value])
      ensures sock.connected && sock.log == old(sock.log) + [Received(Frame(frame))]
    {
      var data := sock.Recv(Frame(frame));
      var decrypted := cipher.decrypt(data.frame.message, key);
      if decrypted.Some? {
        user.AddToRxMessageBuffer(data.frame.username + ": " + decrypted.value);
      }
    }

    /** Starts the send and receive threads. */
    method InitMessaging()
      modifies this
      ensures messaging
    {
      messaging := true;
    }
  }
}
