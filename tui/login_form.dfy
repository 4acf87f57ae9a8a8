/**
 * The credential submission of the login form (tui/login_form.py): the guard on empty
 * inputs, the hand-off of the credentials and the intent to the session record, and
 * the message shown after a rejected attempt. Where the form polls the record until
 * the authentication thread lowers `start_authentication`, the model runs that
 * thread's attempt directly.
 */
module LoginForm {
  import opened Session
  import opened Protocol

  const WrongCredentials := "Wrong credentials. Try again."
  const AccountExists := "Account already exists."

  /** The label text after a rejected attempt: the login message for the "login" tab,
      the registration message for any other tab name. */
  function FailureMessage(operation: string): (m: string)
    ensures m == WrongCredentials <==> operation == "login"
    ensures m == AccountExists <==> operation != "login"
  {
    if operation == "login" then WrongCredentials else AccountExists
  }

  /** Whether the form is still open, was closed by `exit()` after a successful
      attempt, or by `exit(1)` on Ctrl+C. */
  datatype FormStatus = Running | Succeeded | Interrupted

  class LoginTUI {
    /** The client whose session record the form fills in. */
    const client: Client
    /** The text of the form's feedback label. */
    var message: string
    var status: FormStatus

    constructor (client: Client)
      ensures this.client == client && message == "" && status == Running
    {
      this.client := client;
      message := "";
      status := Running;
    }

    /** Records the intent, raises `start_authentication`, lets the authentication thread
        run its attempt, then closes the form if authenticated or shows why not. */
    method CheckUserCredentials(operation: string, reply: string)
      requires client.sock.connected && !client.user.authed
      modifies this, client.user, client.sock
      ensures client.user.State() == old(client.user.State()).(
        doRegistration := operation == "register", startAuthentication := false, authed := reply == "OK")
      ensures client.sock.connected
      ensures client.sock.log == old(client.sock.log) +
        Exchange(Request(if operation == "register" then Register else Login,
                         old(client.user.username), old(client.user.pwHash)), reply)
      ensures reply == "OK" ==> status == Succeeded && message == old(message)
      ensures reply != "OK" ==> status == old(status) && message == FailureMessage(operation)
    {
      client.user.SetDoRegistration(operation == "register");
      client.user.SetStartAuthentication(true);
      client.AuthenticationAttempt(reply);
      var authed := client.user.GetAuthed();
      if authed {
        status := Succeeded;
      } else {
        message := FailureMessage(operation);
      }
    }

    /** Submit: with any of the three inputs empty nothing happens; otherwise the
        username, the password's digest and the derived key are stored, and only then
        is the attempt started, so the request carries the new credentials. */
    method SubmitUserCredentials(username: string, password: string, passphrase: string,
                                 operation: string, reply: string, sha3: string -> string)
      requires client.sock.connected && !client.user.authed
      modifies this, client.user, client.sock
      ensures username == "" || password == "" || passphrase == "" ==>
        unchanged(this) && unchanged(client.user) && unchanged(client.sock)
      ensures username != "" && password != "" && passphrase != "" ==>
        && client.user.State() == old(client.user.State()).(
             username := username, pwHash := sha3(password), encrKey := DeriveKey(passphrase),
             doRegistration := operation == "register", startAuthentication := false, authed := reply == "OK")
        && client.sock.log == old(client.sock.log) +
             Exchange(Request(if operation == "register" then Register else Login, username, sha3(password)), reply)
        && (reply == "OK" ==> status == Succeeded && message == old(message))
        && (reply != "OK" ==> status == old(status) && message == FailureMessage(operation))
      ensures client.sock.connected
    {
      if username == "" || password == "" || passphrase == "" {
        return;
      }
      client.user.SetUsername(username);
      client.user.SetPwHash(password, sha3);
      client.user.SetEncrKey(passphrase);
      CheckUserCredentials(operation, reply);
    }

    /** Ctrl+C: closes the form with return code 1. */
    method ActionExit()
      modifies this
      ensures status == Interrupted && message == old(message)
    {
      status := Interrupted;
    }
  }
}
