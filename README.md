# PyTalk client core in Dafny

This project models the client side of PyTalk, a terminal chat program.
- A user registers or logs in against a server.
- After that, the client exchanges chat lines with the other users.
- Chat lines are encrypted end to end with a Fernet key.
- The key is derived from a passphrase that every participant types in.

The model covers four parts of the client:

- **The session record** (`user.py`, the class `User`) is modelled as `Session.User`.
  - It holds the username, the password digest and the authentication flags.
  - It holds the derived encryption key.
  - It holds the receive and transmit buffers.
  - The key derivation is `Session.DeriveKey`: pad the passphrase with spaces to 32 characters, encode it as UTF-8, then Base64. No truncation happens.
  - The encodings are modelled in `Encoding`, with a proved Base64 round trip and the test vectors of section 10 of RFC 4648.
- **The client** (`client.py`) is in `Protocol`. It holds:
  - the login and registration requests;
  - one authentication attempt;
  - one pass of the send thread and one frame of the receive thread;
  - the socket, kept as a log of wire events.
  - The automaton `WireRun` checks which logs are well formed:
    - connect first;
    - every request is answered before the next one;
    - chat tokens go out only after a reply "OK".
- **The login form's submission logic** (`tui/login_form.py`) is `LoginForm.LoginTUI`.
  - The form ignores a submission with an empty field.
  - Otherwise it stores the credentials and starts the attempt.
  - It closes on success, or shows the failure text for the selected tab.
- **The start-up order** (`client.py` `start`) is `Startup.Start`: connect, run the form, and start messaging only after success.
  - The messaging phase is `Startup.Messaging`: a schedule of atomic steps.
    - The chat window adds an entered line to tx (`tui/chat_ui.py:45`).
    - Its update task writes rx to the screen and clears it (`tui/chat_ui.py:66-79`).
    - The send thread makes one pass; the receive thread reads one frame.
  - It is proved to keep three accounts:
    - every entered line is either sent or still waiting in tx, in entry order;
    - the wire carries exactly the sent lines, encrypted in that order;
    - the display lines of the frames that decrypt are, in arrival order, either on the screen or still waiting in rx.

Three things outside the client are parameters of the model: SHA3-512 (`sha3: string -> string`), Fernet encryption and decryption (`Protocol.Cipher`), and what the server sends. Each `recv` takes the value that arrives as an input of the step that reads it.

## Model

| member | source | states |
|---|---|---|
| Encoding.CharUtf8 | user.py:61 | A character encodes to 1–4 bytes; one byte exactly when it is ASCII, and then that byte is its code. |
| Encoding.Utf8 | user.py:61 | The encoding is never shorter than the text, and has the same length exactly when the text is all ASCII. |
| Encoding.Utf8Append | user.py:61 | UTF-8 encoding distributes over concatenation. |
| Encoding.Utf8OfAscii | user.py:61 | An ASCII text encodes to its own character codes, one byte each. |
| Encoding.Sextets | user.py:61 | Cutting bytes into 6-bit values yields values below 64, and as many as 4 per started group of 3 bytes minus the padding. |
| Encoding.ToChars | user.py:61 | Every alphabet character produced is not '=' and reads back as the value it encodes. |
| Encoding.Base64Encode | user.py:61 | The encoding has 4·⌈n/3⌉ characters, and '=' appears exactly in its last (3 − n mod 3) mod 3 positions. |
| Encoding.SextetsRoundTrip | user.py:61 | Joining the 6-bit values gives back the bytes. |
| Encoding.CharsRoundTrip | user.py:61 | Reading the alphabet characters back gives the 6-bit values. |
| Encoding.PaddingStripped | user.py:61 | The encoding's length is a multiple of 4, and stripping its trailing '=' leaves exactly the alphabet part. |
| Encoding.Base64RoundTrip | user.py:61 | Decoding the Base64 encoding of any bytes gives back those bytes. |
| Encoding.DecodedLength | client.py:30 | A text that decodes gives three bytes per group of four characters, less one byte per trailing '='. |
| Encoding.FirstGroup | user.py:61 | Encoding works three bytes at a time: a leading group of three bytes encodes to its own four characters, whatever follows. |
| Encoding.EncodeOne | user.py:61 | A single final byte is spelled as two alphabet letters followed by "==". |
| Encoding.EncodeTwo | user.py:61 | Two final bytes are spelled as three alphabet letters followed by "=". |
| Encoding.EncodeThree | user.py:61 | Three bytes are spelled as four alphabet letters, six bits each, high bits first. |
| Encoding.EncodeFour | user.py:61 | Four bytes are spelled as a full group followed by a one-byte group. |
| Encoding.EncodeFive | user.py:61 | Five bytes are spelled as a full group followed by a two-byte group. |
| Encoding.EncodeSix | user.py:61 | Six bytes are spelled as two full groups. |
| Encoding.Rfc4648Empty | user.py:61 | The empty input encodes to the empty text (RFC 4648, section 10). |
| Encoding.Rfc4648F | user.py:61 | "f" encodes to "Zg==" (RFC 4648, section 10). |
| Encoding.Rfc4648Fo | user.py:61 | "fo" encodes to "Zm8=" (RFC 4648, section 10). |
| Encoding.Rfc4648Foo | user.py:61 | "foo" encodes to "Zm9v" (RFC 4648, section 10). |
| Encoding.Rfc4648Foob | user.py:61 | "foob" encodes to "Zm9vYg==" (RFC 4648, section 10). |
| Encoding.Rfc4648Fooba | user.py:61 | "fooba" encodes to "Zm9vYmE=" (RFC 4648, section 10). |
| Encoding.Rfc4648Foobar | user.py:61 | "foobar" encodes to "Zm9vYmFy" (RFC 4648, section 10). |
| Session.PadPassphrase | user.py:61 | The padded passphrase has length max(32, n), starts with the passphrase, and is spaces after it; nothing is cut. |
| Session.KeyDecodes | user.py:61 | The stored key is the Base64 text of the padded passphrase's UTF-8 bytes: decoding it gives exactly those bytes back, for every passphrase. |
| Session.PaddedBytes32 | user.py:59-62 | The padded passphrase encodes to exactly 32 bytes if and only if the passphrase is ASCII and at most 32 characters. |
| Session.KeyShape | user.py:59-62 | For such a passphrase the stored key has 44 characters, ends in a single '=', and has no other '='. |
| Session.SameKeyIff | user.py:59-62 | Two ASCII passphrases give the same key if and only if their padded forms are equal, so trailing spaces up to 32 characters collide. |
| Session.User.constructor | user.py:7-16 | A new record is empty: no name, no digest, all flags false, no key, both buffers empty. |
| Session.User.SetUsername | user.py:18-20 | Only the username changes. |
| Session.User.GetUsername | user.py:22-24 | Returns the stored username. |
| Session.User.SetPwHash | user.py:26-29 | Only the digest changes, and it becomes the SHA3 digest of the password. |
| Session.User.GetPwHash | user.py:31-33 | Returns the stored digest. |
| Session.User.SetDoRegistration | user.py:35-37 | Only the registration intent changes. |
| Session.User.GetDoRegistration | user.py:39-41 | Returns the registration intent. |
| Session.User.SetStartAuthentication | user.py:43-45 | Only the start-authentication flag changes. |
| Session.User.GetStartAuthentication | user.py:47-49 | Returns the start-authentication flag. |
| Session.User.SetAuthed | user.py:51-53 | Only the authenticated flag changes. |
| Session.User.GetAuthed | user.py:55-57 | Returns the authenticated flag. |
| Session.User.SetEncrKey | user.py:59-62 | Only the key changes, and it becomes the key derived from the passphrase. |
| Session.User.GetEncrKey | user.py:64-66 | Returns the stored key. |
| Session.User.AddToRxMessageBuffer | user.py:68-70 | The message is appended at the end of rx; nothing else changes. |
| Session.User.ClearRxMessageBuffer | user.py:72-74 | rx becomes empty; nothing else changes. |
| Session.User.GetRxMessageBuffer | user.py:76-78 | Returns rx. |
| Session.User.AddToTxMessageBuffer | user.py:80-82 | The message is appended at the end of tx; nothing else changes. |
| Session.User.ClearTxMessageBuffer | user.py:84-86 | tx becomes empty; nothing else changes. |
| Session.User.GetTxMessageBuffer | user.py:88-90 | Returns tx. |
| Protocol.FernetKey | client.py:30 | A key Fernet accepts (it decodes to 32 bytes) is 44 characters long and ends in exactly one '='. |
| Protocol.KeyUsableIff | client.py:21-32 | Fernet accepts the stored key (it decodes to 32 bytes) if and only if the passphrase is ASCII and at most 32 characters. |
| Protocol.RequestRecord | client.py:123-128 | The request record has exactly the keys operation, username and pw_hash; the operation reads "register" or "login" according to the request; the other two carry the credentials. |
| Protocol.AuthRequest | client.py:169-178 | The attempt registers exactly when the registration intent is set, and carries the stored username and digest. |
| Protocol.EncryptAll | client.py:77-79 | One token per buffered line. |
| Protocol.EncryptAllEach | client.py:77-79 | Token i is the encryption of line i with the key, in buffer order. |
| Protocol.DisplayLines | client.py:107-111 | Never more display lines than frames read. |
| Protocol.DisplayLinesAll | client.py:107-111 | If no frame decrypts, nothing is shown. If every frame decrypts, line i is the sender of frame i, ": ", then its plaintext. |
| Protocol.EncryptAllAppend | client.py:76-82 | Encrypting lines one by one distributes over concatenation. |
| Protocol.DisplayLinesAppend | client.py:106-111 | The lines shown for the frames read distribute over concatenation. |
| Protocol.ChatTokensOfSends | client.py:76-82 | Sending tokens adds exactly those tokens to the chat traffic, after the earlier ones. |
| Protocol.AuthenticatedOnlyAfterOk | client.py:189-204 | A well-formed log can reach the authenticated phase only if the server replied "OK". |
| Protocol.ChatOnlyAfterOk | client.py:264-278 | On a well-formed log, every chat token sent and every chat frame read is preceded by a reply "OK". |
| Protocol.RequestThenReply | client.py:130-136 | In a well-formed log, the event after each sent request is a feedback reply. |
| Protocol.ExchangeStep | client.py:194-201 | From the idle phase, one request and its reply lead to the authenticated phase exactly when the reply is "OK", and back to idle otherwise. |
| Protocol.SendsKeepAuthenticated | client.py:76-82 | Sending chat tokens in the authenticated phase keeps the log well formed and authenticated. |
| Protocol.Socket.constructor | client.py:19 | A new socket is unconnected with an empty log. |
| Protocol.Socket.Connect | client.py:258 | The socket becomes connected and logs the connection. |
| Protocol.Socket.Send | client.py:131 | The packet is logged as sent. |
| Protocol.Socket.Recv | client.py:134 | Returns what arrived and logs it as received. |
| Protocol.Client.constructor | client.py:14-19 | The client holds the given record and a fresh, unconnected socket, and is not messaging. |
| Protocol.Client.Connect | client.py:246-262 | The client's socket becomes connected, with the connection at the end of its log. |
| Protocol.Client.DoLogin | client.py:113-136 | Sends a login request with the given credentials, then returns the reply; the log grows by exactly that exchange. |
| Protocol.Client.DoRegistration | client.py:138-161 | Sends a register request with the given credentials, then returns the reply; the log grows by exactly that exchange. |
| Protocol.Client.AuthenticateUser | client.py:163-180 | Sends the request built from the record, which registers or logs in by the intent, and returns the reply. |
| Protocol.Client.AuthenticationAttempt | client.py:194-204 | After one attempt, authed is true exactly when the reply is "OK", start-authentication is false, nothing else changes, and the log grows by the exchange. |
| Protocol.Client.SendStep | client.py:69-88 | One pass sends every line in tx, in order, each as its own encrypted token, then empties tx; nothing else in the record changes. |
| Protocol.Client.SendEach | client.py:77-82 | Each line of the buffer goes out as its own encrypted token, in buffer order; the log grows by exactly those frames. |
| Protocol.Client.ReceiveStep | client.py:101-111 | A frame that decrypts appends "username: text" to rx; one that does not leaves the record unchanged; the frame is logged. |
| Protocol.Client.InitMessaging | client.py:206-224 | Messaging is started. |
| LoginForm.FailureMessage | tui/login_form.py:86-92 | The failure text is the wrong-credentials message exactly for the "login" tab, and the account-exists message exactly for any other tab. |
| LoginForm.LoginTUI.constructor | tui/login_form.py:12-17 | The form belongs to the given client, is open, and shows no message. |
| LoginForm.LoginTUI.CheckUserCredentials | tui/login_form.py:67-92 | Records the intent and runs one attempt with the stored credentials. On "OK" the form closes with its label untouched; otherwise it stays open and shows the failure text for the tab. |
| LoginForm.LoginTUI.SubmitUserCredentials | tui/login_form.py:94-117 | With any field empty nothing changes at all. Otherwise the username, the password digest and the derived key are stored first, and the attempt then sends exactly those credentials. |
| LoginForm.LoginTUI.ActionExit | tui/login_form.py:131-136 | Ctrl+C closes the form with return code 1 and leaves the label alone. |
| Startup.SubmittedRequest | tui/login_form.py:67-73 | A submission registers exactly when the selected tab is "register", and carries its username and the digest of its password. |
| Startup.LastSubmission | tui/login_form.py:104-111 | The last submission the form stored is a complete one: all three fields filled in. |
| Startup.WithCredentials | tui/login_form.py:108-111 | Storing a submission sets the username, the digest of the password, the key derived from the passphrase and the registration intent, and nothing else. |
| Startup.AttemptsConform | client.py:188-204 | From an idle connection, the exchanges the inputs cause leave it authenticated exactly when the inputs lead to messaging, and idle otherwise. |
| Startup.AttemptsNoChat | client.py:264-278 | The exchanges before messaging carry no chat traffic. |
| Startup.StartedKey | tui/login_form.py:108-111 | When messaging starts, the record holds the key of the submission answered "OK", and Fernet accepts it exactly when that passphrase is ASCII and at most 32 characters. |
| Startup.FormDone | client.py:226-244 | Once the form has closed or the inputs run out, the outcome, the record and the log are the ones the reference functions give. |
| Startup.HandleInput | tui/login_form.py:94-136 | The form handles one input, a Ctrl+C or a submission, and the record, the log and the form's status advance as the reference functions say. |
| Startup.Start | client.py:226-278 | The outcome is decided by the first Ctrl+C (exit 1) or the first complete submission answered "OK". Messaging starts, and the user is authenticated, exactly in the second case. The record holds the last complete submission's username, digest, key and registration intent, and nothing else changes. The log is the connection followed by exactly one exchange per complete submission up to the deciding one. It ends authenticated or idle accordingly and carries no chat traffic. |
| Startup.SendPassStep | client.py:69-88 | A send pass during messaging puts all of tx on the wire as chat tokens, in order, empties tx, changes nothing else in the record, and keeps the connection authenticated. |
| Startup.MessagingStep | client.py:53-111 | Each step keeps the three accounts (sent or waiting; on the wire; on the screen or waiting in rx) and the authenticated phase, and does exactly its own part. An entered line is queued in tx and nothing is sent. A send pass sends all of tx and empties it. A frame read logs the frame and touches only rx. An update of the chat window shows all of rx and empties it (tui/chat_ui.py:66-79). Only a send pass sends and only an update shows. |
| Startup.Messaging | client.py:206-224 | Over any schedule, old tx followed by the entered lines equals the sent lines followed by the new tx. The wire's chat tokens grow by exactly the sent lines encrypted in order. Old rx followed by the display lines of the frames that decrypt equals the lines shown on screen followed by the new rx. The log stays authenticated, and nothing else in the record changes. A run that ends with a send pass leaves tx empty and has sent the old tx followed by every entered line. A run that ends with an update of the chat window leaves rx empty and has shown the old rx followed by every display line. |

## Left out

- SHA3-512, Fernet encryption and decryption: foreign library code, passed in as functions (`sha3`, `Protocol.Cipher`). The timestamp and random IV make Fernet encryption nondeterministic; the model folds them into the encrypt function.
- JSON encoding of requests and frames, UTF-8 decoding of replies, and `recv(1024)` framing: each request is the record `RequestRecord` describes. Each `recv` is assumed to return one complete reply or frame.
- The 100 ms and 5 s sleeps and the polling loops: the login form runs the authentication attempt directly instead of waiting for the authentication thread. One attempt happens per submission.
- `__connect`'s retry on a refused connection, and its printed message: the model's connection succeeds the first time.
- Threads: the two messaging threads and the chat window are interleaved as a schedule of atomic steps. A line appended to tx while a send pass is iterating over the same list is not modelled, because the model takes a pass as atomic.
- The getters return the live Python lists; the model returns the buffer's value, so the aliasing of those lists is not captured.
- The Textual user interface: the widget layout and input length limits (`compose`), the window title and subtitle handlers, and `main.py` are not part of this model.
- The chat window (`tui/chat_ui.py`) appears only as two messaging steps: adding an entered line to tx, and writing rx to the screen and clearing it. Its own "you: " echo of entered lines, the clear-screen binding and the widgets are not modelled. The screen is the sequence of lines written to it.
- Fernet's own key check: Python decodes the key with the lenient URL-safe decoder; the model uses the strict standard decoder. The two agree on every key the record can hold, because those keys use the standard alphabet with correct padding.
- Protocol.Client.SendStep: requires a key Fernet accepts. With a longer or non-ASCII passphrase the source's thread fails with an exception, which the model does not represent.
- Protocol.Client.ReceiveStep: requires a key Fernet accepts, for the same reason as `SendStep`.
- Startup.Messaging: requires a key Fernet accepts, because it runs the two steps above.
- Protocol.Client.AuthenticationAttempt: requires start-authentication to be set, in place of the loop that waits for it.
- Key truncation: `user.py:61` pads but never cuts, so a passphrase over 32 characters keeps its length. `Protocol.KeyUsableIff` shows which passphrases give a usable key.
- Session.SameKeyIff: stated for ASCII passphrases only, because only those can give a usable key (`Protocol.KeyUsableIff`).
