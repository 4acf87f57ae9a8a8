/**
 * The shared session record of the chat client (user.py): credentials, the
 * register/login intent, the two authentication flags, the derived encryption key
 * and the outbound (tx) and inbound (rx) message buffers. The login form, the
 * authentication step and the two message pumps all read and write one `User`.
 */
module Session {
  import opened Optional
  import opened Encoding

  /** The Fernet key as the bytes `base64.b64encode` returns, one character per byte. */
  type Key = string

  /** The width the passphrase is left-justified to before encoding. */
  const KeyWidth: nat := 32

  /** Python's `f"{p:<32}"`: the passphrase followed by spaces up to width 32. Formatting
      pads but never truncates, so a longer passphrase is returned unchanged. */
  function PadPassphrase(p: string): (r: string)
    ensures |r| == if |p| < KeyWidth then KeyWidth else |p|
    ensures r[..|p|] == p
    ensures forall i :: |p| <= i < |r| ==> r[i] == ' '
  {
    if |p| < KeyWidth then p + seq(KeyWidth - |p|, _ => ' ') else p
  }

  /** `set_encr_key`'s derivation: Base64 of the UTF-8 bytes of the padded passphrase. */
  function DeriveKey(passphrase: string): (k: Key)
  {
    Base64Encode(Utf8(PadPassphrase(passphrase)))
  }

  /** Every field of the record at one moment. */
  datatype UserState = UserState(
    username: string,
    pwHash: string,
    doRegistration: bool,
    startAuthentication: bool,
    authed: bool,
    encrKey: Key,
    rx: seq<string>,
    tx: seq<string>)

  /** The record as `User()` creates it. */
  const InitialState := UserState("", "", false, false, false, "", [], [])

  class User {
    var username: string
    var pwHash: string
    var doRegistration: bool
    var startAuthentication: bool
    var authed: bool
    var encrKey: Key
    var rxBuffer: seq<string>
    var txBuffer: seq<string>

    function State(): (r: UserState)
      reads this
    {
      UserState(username, pwHash, doRegistration, startAuthentication, authed, encrKey, rxBuffer, txBuffer)
    }

    constructor ()
      ensures State() == InitialState
    {
      username, pwHash := "", "";
      doRegistration, startAuthentication, authed := false, false, false;
      encrKey := "";
      rxBuffer, txBuffer := [], [];
    }

    method SetUsername(username: string)
      modifies this
      ensures State() == old(State()).(username := username)
    {
      this.username := username;
    }

    method GetUsername() returns (r: string)
      ensures r == username
    {
      r := username;
    }

    /** Stores the digest of the password under `sha3` (the hex SHA3-512 digest, a
        parameter of the model); the password itself is kept in no field. */
    method SetPwHash(password: string, sha3: string -> string)
      modifies this
      ensures State() == old(State()).(pwHash := sha3(password))
    {
      pwHash := sha3(password);
    }

    method GetPwHash() returns (r: string)
      ensures r == pwHash
    {
      r := pwHash;
    }

    method SetDoRegistration(operation: bool)
      modifies this
      ensures State() == old(State()).(doRegistration := operation)
    {
      doRegistration := operation;
    }

    method GetDoRegistration() returns (r: bool)
      ensures r == doRegistration
    {
      r := doRegistration;
    }

    method SetStartAuthentication(status: bool)
      modifies this
      ensures State() == old(State()).(startAuthentication := status)
    {
      startAuthentication := status;
    }

    method GetStartAuthentication() returns (r: bool)
      ensures r == startAuthentication
    {
      r := startAuthentication;
    }

    method SetAuthed(status: bool)
      modifies this
      ensures State() == old(State()).(authed := status)
    {
      authed := status;
    }

    method GetAuthed() returns (r: bool)
      ensures r == authed
    {
      r := authed;
    }

    method SetEncrKey(key: string)
      modifies this
      ensures State() == old(State()).(encrKey := DeriveKey(key))
    {
      encrKey := DeriveKey(key);
    }

    method GetEncrKey() returns (r: Key)
      ensures r == encrKey
    {
      r := encrKey;
    }

    method AddToRxMessageBuffer(message: string)
      modifies this
      ensures State() == old(State()).(rx := old(rxBuffer) + [message])
    {
      rxBuffer := rxBuffer + [message];
    }

    method ClearRxMessageBuffer()
      modifies this
      ensures State() == old(State()).(rx := [])
    {
      rxBuffer := [];
    }

    method GetRxMessageBuffer() returns (r: seq<string>)
      ensures r == rxBuffer
    {
      r := rxBuffer;
    }

    method AddToTxMessageBuffer(message: string)
      modifies this
      ensures State() == old(State()).(tx := old(txBuffer) + [message])
    {
      txBuffer := txBuffer + [message];
    }

    method ClearTxMessageBuffer()
      modifies this
      ensures State() == old(State()).(tx := [])
    {
      txBuffer := [];
    }

    method GetTxMessageBuffer() returns (r: seq<string>)
      ensures r == txBuffer
    {
      r := txBuffer;
    }
  }

  // ------------------------------------------------------- key derivation

  lemma {:induction false} PaddedAscii(p: string)
    requires IsAscii(p)
    ensures IsAscii(PadPassphrase(p))
  {
    var r := PadPassphrase(p);
    forall i | 0 <= i < |r| ensures r[i] as int < 0x80 {
      if i < |p| { assert r[i] == r[..|p|][i]; }
    }
  }

  /** The UTF-8 form of the padded passphrase is 32 bytes exactly for ASCII
      passphrases of at most 32 characters. */
  lemma {:induction false} PaddedBytes32(p: string)
    ensures |Utf8(PadPassphrase(p))| == KeyWidth <==> IsAscii(p) && |p| <= KeyWidth
  {
    var r := PadPassphrase(p);
    if |p| < KeyWidth {
      var spaces := seq(KeyWidth - |p|, _ => ' ');
      assert r == p + spaces;
      Utf8Append(p, spaces);
      assert IsAscii(spaces);
    }
  }

  /** The key is undone by Base64 decoding: it gives back exactly the UTF-8 bytes of the
      padded passphrase, whatever the passphrase. */
  lemma KeyDecodes(p: string)
    ensures Base64Decode(DeriveKey(p)) == Some(Utf8(PadPassphrase(p)))
  {
    Base64RoundTrip(Utf8(PadPassphrase(p)));
  }

  /** For an ASCII passphrase of at most 32 characters the key has 44 characters,
      the last one '=' and no other '='. */
  lemma KeyShape(p: string)
    requires IsAscii(p) && |p| <= KeyWidth
    ensures |DeriveKey(p)| == 44
    ensures DeriveKey(p)[43] == '='
    ensures forall i :: 0 <= i < 43 ==> DeriveKey(p)[i] != '='
  {
    PaddedBytes32(p);
  }

  /** Two ASCII passphrases give the same key exactly when they agree once padded,
      so passphrases that differ only in trailing spaces up to width 32 share a key.
      The lemma is stated for ASCII because only ASCII passphrases can give a usable
      key at all (`Protocol.KeyUsableIff`); on ASCII the UTF-8 bytes are the character
      codes, so agreeing keys mean agreeing characters. */
  lemma {:induction false} SameKeyIff(p: string, q: string)
    requires IsAscii(p) && IsAscii(q)
    ensures DeriveKey(p) == DeriveKey(q) <==> PadPassphrase(p) == PadPassphrase(q)
  {
    var a, b := PadPassphrase(p), PadPassphrase(q);
    if DeriveKey(p) == DeriveKey(q) {
      Base64RoundTrip(Utf8(a));
      Base64RoundTrip(Utf8(b));
      assert Utf8(a) == Utf8(b);
      PaddedAscii(p);
      PaddedAscii(q);
      Utf8OfAscii(a);
      Utf8OfAscii(b);
      forall i | 0 <= i < |a| ensures a[i] == b[i] {
        assert a[i] as int == Utf8(a)[i] == Utf8(b)[i] == b[i] as int;
      }
    }
  }
}
