/**
 * The key lookup and the encryption decision of both ingestion paths
 * (cmd/sendmail/main.go and cmd/sendmail/smtpsrv.go), and `encrypter`.
 * Key files live in /keys and are named after the hasher's digest of an
 * address: `.pgp` is the recipient's public key, `.config` the list of
 * subjects to encrypt and `.privpgp` the sender's signing key.
 */
module Keys {
  import opened Wrappers
  import opened GoStrings
  import opened Mail
  import opened Platform
  import opened Util

  const KeyDir := "/keys/"

  /** The environment variable naming the sender, and the one holding the signing passphrase. */
  const SmartLogin := "SENDMAIL_SMART_LOGIN"
  const Secret := "SENDMAIL_SECRET"

  function PublicKeyPath(h: Host, recipient: string): string
  {
    KeyDir + h.hasher(recipient) + ".pgp"
  }

  function ConfigPath(h: Host, recipient: string): string
  {
    KeyDir + h.hasher(recipient) + ".config"
  }

  function SigningKeyPath(h: Host): string
  {
    KeyDir + h.hasher(Getenv(h, SmartLogin)) + ".privpgp"
  }

  /** A file counts as present unless reading it reports that it does not exist. */
  predicate KeyFound(h: Host, recipient: string)
  {
    !ReadFile(h, PublicKeyPath(h, recipient)).NotExist?
  }

  /** The armored text of a PGP helper, or the log.Fatal its failure causes. */
  function Armored(armor: Result<string, Error>): Result<string, Exit>
  {
    if armor.Ok? then Ok(armor.value) else Err(Fatal(armor.error.Text()))
  }

  /**
   * encrypter: encrypt-and-sign with the sender's signing key and the
   * passphrase from the environment when the sender has a `.privpgp` file,
   * encrypt-only otherwise; a helper error ends the process.
   */
  function Encrypter(h: Host, pgpdata: string, body: string): Result<string, Exit>
  {
    var privkey := ReadFile(h, SigningKeyPath(h));
    if privkey.NotExist? then Armored(h.encrypt(pgpdata, body))
    else Armored(h.encryptSign(pgpdata, Data(privkey), Getenv(h, Secret), body))
  }

  /** The body after `layers` successive calls of encrypter. */
  function Wrap(h: Host, pgpdata: string, body: string, layers: nat): Result<string, Exit>
    decreases layers
  {
    if layers == 0 then Ok(body)
    else match Encrypter(h, pgpdata, body)
      case Err(e) => Err(e)
      case Ok(armor) => Wrap(h, pgpdata, armor, layers - 1)
  }

  /**
   * The command path: no layer without the recipient's public key; with it,
   * one layer when there is no `.config` file or the file mentions the
   * subject "..." (the subject has just been forced to it), otherwise none.
   */
  function CommandLayers(h: Host, recipient: string): nat
  {
    if !KeyFound(h, recipient) then 0
    else
      var config := ReadFile(h, ConfigPath(h, recipient));
      if config.NotExist? then 1
      else if Contains(Data(config), Marker) then 1
      else 0
  }

  /**
   * The session path: no layer without the public key; one layer when there
   * is no `.config` file; two when the file mentions the parsed subject;
   * otherwise none.
   */
  function SessionLayers(h: Host, recipient: string, subject: string): nat
  {
    if !KeyFound(h, recipient) then 0
    else
      var config := ReadFile(h, ConfigPath(h, recipient));
      if config.NotExist? then 1
      else if Contains(Data(config), subject) then 2
      else 0
  }

  /**
   * encrypter signs exactly when the sender's `.privpgp` file is there, and
   * fails exactly when the helper it chose fails, with that helper's error.
   */
  lemma EncrypterChoice(h: Host, pgpdata: string, body: string)
    ensures var privkey := ReadFile(h, SigningKeyPath(h));
            var plain := h.encrypt(pgpdata, body);
            var signed := h.encryptSign(pgpdata, Data(privkey), Getenv(h, Secret), body);
            var r := Encrypter(h, pgpdata, body);
            && (privkey.NotExist? ==> (r.Ok? <==> plain.Ok?) && (r.Ok? ==> r.value == plain.value)
                                       && (r.Err? ==> r.error == Fatal(plain.error.Text())))
            && (!privkey.NotExist? ==> (r.Ok? <==> signed.Ok?) && (r.Ok? ==> r.value == signed.value)
                                        && (r.Err? ==> r.error == Fatal(signed.error.Text())))
  {
  }

  /** Without a layer the body is unchanged; each layer is one more call of encrypter. */
  lemma {:induction false} WrapLayers(h: Host, pgpdata: string, body: string, n: nat)
    decreases n
    ensures Wrap(h, pgpdata, body, 0) == Ok(body)
    ensures Wrap(h, pgpdata, body, n + 1) ==
              match Wrap(h, pgpdata, body, n)
              case Err(e) => Err(e)
              case Ok(inner) => Encrypter(h, pgpdata, inner)
  {
    if n > 0 {
      var first := Encrypter(h, pgpdata, body);
      if first.Ok? {
        WrapLayers(h, pgpdata, first.value, n - 1);
      }
    } else {
      var first := Encrypter(h, pgpdata, body);
      if first.Ok? {
        assert Wrap(h, pgpdata, first.value, 0) == Ok(first.value);
      }
    }
  }

  /** The command path never encrypts more than once, and never without the public key. */
  lemma CommandAtMostOnce(h: Host, recipient: string)
    ensures CommandLayers(h, recipient) <= 1
    ensures CommandLayers(h, recipient) == 1 ==> KeyFound(h, recipient)
    ensures KeyFound(h, recipient) && ReadFile(h, ConfigPath(h, recipient)).NotExist? ==> CommandLayers(h, recipient) == 1
  {
  }

  /** An empty parsed subject occurs in every config text, so it always means two layers. */
  lemma EmptySubjectDoubles(h: Host, recipient: string)
    requires KeyFound(h, recipient) && !ReadFile(h, ConfigPath(h, recipient)).NotExist?
    ensures SessionLayers(h, recipient, "") == 2
  {
    assert "" <= Data(ReadFile(h, ConfigPath(h, recipient)));
  }

  /**
   * For the same key files the two paths disagree: a config naming both
   * "..." and the subject gives one layer on the command path and two on
   * the session path.
   */
  lemma PathsDiverge(h: Host, recipient: string, subject: string)
    requires KeyFound(h, recipient)
    requires ReadFile(h, ConfigPath(h, recipient)).Found?
    requires Contains(ReadFile(h, ConfigPath(h, recipient)).data, Marker)
    requires Contains(ReadFile(h, ConfigPath(h, recipient)).data, subject)
    ensures CommandLayers(h, recipient) == 1 && SessionLayers(h, recipient, subject) == 2
  {
  }

  /** The decision reads only the files named after the given recipient's digest. */
  lemma SameDigestSameDecision(h: Host, r1: string, r2: string, subject: string)
    requires h.hasher(r1) == h.hasher(r2)
    ensures CommandLayers(h, r1) == CommandLayers(h, r2)
    ensures SessionLayers(h, r1, subject) == SessionLayers(h, r2, subject)
  {
  }
}
