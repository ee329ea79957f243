/**
 * The SMTP session of cmd/sendmail/smtpsrv.go: MAIL FROM records the sender
 * when its domain is authorised, RCPT TO records the recipients, and DATA
 * decides on encryption, builds the envelope and drains the delivery
 * results, returning the first severe error to the client.
 */
module Smtp {
  import opened Wrappers
  import opened GoStrings
  import opened Mail
  import opened Platform
  import opened Util
  import opened Domains
  import opened Envelopes
  import opened Delivery
  import opened Keys
  import opened Command

  class Session {
    var from: string
    var to: seq<string>

    /** Backend.NewSession: a session with no sender and no recipients. */
    constructor ()
      ensures from == "" && to == []
    {
      from := "";
      to := [];
    }

    /**
     * Mail (RFC 5321 section 4.1.1.2): a sender whose domain the allow-list
     * refuses is rejected and leaves the session as it was; any other sender
     * becomes the session's sender.
     */
    method Mail(g: Globals, sender: string) returns (err: Option<Error>)
      modifies this
      ensures var domain := GetDomainFromAddress(sender);
              && (Authorizes(g.senderDomains.domains, domain) ==> err == None && from == sender)
              && (!Authorizes(g.senderDomains.domains, domain) ==>
                    err == Some(UnauthorizedSenderDomain(domain)) && from == old(from))
      ensures to == old(to)
    {
      var senderDomain := GetDomainFromAddress(sender);
      if |g.senderDomains.domains| > 0 {
        var allowed := g.senderDomains.Contains(senderDomain);
        if !allowed {
          return Some(UnauthorizedSenderDomain(senderDomain));
        }
      }
      from := sender;
      return None;
    }

    /**
     * Rcpt (RFC 5321 section 4.1.1.3): the recipients become the argument
     * split on commas, replacing those of earlier calls rather than adding to
     * them.
     */
    method Rcpt(arg: string) returns (err: Option<Error>)
      modifies this
      ensures to == Split(arg, ',')
      ensures from == old(from)
      ensures err == None
    {
      to := Split(arg, ',');
      return None;
    }

    /**
     * Data: `input` is the message text, `parsedSubject` the subject
     * parsemail found (None when parsing failed). `err` is what the client
     * gets back, `exit` how the process ends if it does, `sent` the envelope
     * handed to Send.
     */
    method Data(g: Globals, input: string, parsedSubject: Option<string>, h: Host)
      returns (log: seq<LogLine>, err: Option<Error>, exit: Option<Exit>, ghost sent: Option<Envelope>)
      modifies g
      ensures Count(Join(to, ""), '@') > 1 ==>
                exit == Some(Fatal("Multiple Recipients detected")) && sent.None? && g.subject == old(g.subject)
      ensures Count(Join(to, ""), '@') <= 1 && |to| == 0 ==> exit == Some(Panic(IndexOutOfRange)) && sent.None?
      ensures Count(Join(to, ""), '@') <= 1 && |to| > 0 && parsedSubject.None? ==>
                exit == Some(Fatal("ohoh")) && sent.None?
      ensures Count(Join(to, ""), '@') <= 1 && |to| > 0 && parsedSubject.Some? ==>
                g.subject == if KeyFound(h, to[0]) then Marker else old(g.subject)
      ensures Count(Join(to, ""), '@') <= 1 && |to| > 0 && parsedSubject.Some?
              && SessionBody(h, input, to[0], parsedSubject.value).Err? ==>
                exit == Some(SessionBody(h, input, to[0], parsedSubject.value).error) && sent.None?
      ensures g.ignoreDot == old(g.ignoreDot)
      ensures Count(Join(to, ""), '@') <= 1 && |to| > 0 && parsedSubject.Some?
              && SessionBody(h, input, to[0], parsedSubject.value).Ok? ==>
                var e := EnvelopeOf(Config(from, to, g.subject, SessionBody(h, input, to[0], parsedSubject.value).value), h.lib);
                (e.Ok? ==> sent == Some(e.value) && exit.None?)
                && (e.Err? ==> exit.None? && sent.None? && err == Some(e.error))
      ensures exit.None? && sent.None? ==>
                |to| > 0 && parsedSubject.Some? && SessionBody(h, input, to[0], parsedSubject.value).Ok?
                && var e := EnvelopeOf(Config(from, to, g.subject, SessionBody(h, input, to[0], parsedSubject.value).value), h.lib);
                   e.Err? && err == Some(e.error)
      ensures sent.Some? && FirstSevere(h.send(sent.value)).None? ==> err == None && log == LogOf(h.send(sent.value))
      ensures sent.Some? ==> |to| > 0 && parsedSubject.Some? && SessionBody(h, input, to[0], parsedSubject.value).Ok?
      ensures sent.Some? ==>
                Ok(sent.value) == EnvelopeOf(Config(from, to, g.subject, SessionBody(h, input, to[0], parsedSubject.value).value), h.lib)
      ensures sent.Some? ==> exit.None?
      ensures sent.Some? && FirstSevere(h.send(sent.value)).Some? ==>
                var results := h.send(sent.value);
                var k := FirstSevere(results).value;
                err == results[k].error && log == LogOf(results[..k]) + [Warn(ErrorText(results[k].error))]
    {
      log, exit, sent := [], None, None;
      var body := input;
      if Count(Join(to, ""), '@') > 1 {
        return log, None, Some(Fatal("Multiple Recipients detected")), sent;
      }
      if |to| == 0 {
        return log, None, Some(Panic(IndexOutOfRange)), sent;
      }
      var pgprecipients := to[0];
      if parsedSubject.None? {
        return log, None, Some(Fatal("ohoh")), sent;
      }
      var encrypted := EncryptSessionBody(g, h, pgprecipients, parsedSubject.value, body);
      if encrypted.Err? {
        return log, None, Some(encrypted.error), sent;
      }
      body := encrypted.value;
      var envelope := NewEnvelope(Config(from, to, g.subject, body), h.lib);
      if envelope.Err? {
        return log, Some(envelope.error), None, sent;
      }
      var results := h.send(envelope.value);
      sent := Some(envelope.value);
      log, err := DrainSession(results);
    }
  }

  /** The body after the session's encryption decision. */
  function SessionBody(h: Host, input: string, recipient: string, subject: string): Result<string, Exit>
  {
    Wrap(h, Data(ReadFile(h, PublicKeyPath(h, recipient))), input, SessionLayers(h, recipient, subject))
  }

  /**
   * The decision at smtpsrv.go:78-96: with the recipient's public key the
   * shared subject becomes "..." and the body gets the layers SessionLayers
   * counts, the second wrapping the armor of the first.
   */
  method EncryptSessionBody(g: Globals, h: Host, recipient: string, subject: string, body: string)
    returns (r: Result<string, Exit>)
    modifies g
    ensures g.subject == if KeyFound(h, recipient) then Marker else old(g.subject)
    ensures g.ignoreDot == old(g.ignoreDot)
    ensures r == Wrap(h, Data(ReadFile(h, PublicKeyPath(h, recipient))), body, SessionLayers(h, recipient, subject))
  {
    var pgpdata := ReadFile(h, PublicKeyPath(h, recipient));
    if pgpdata.NotExist? {
      return Ok(body);
    }
    g.subject := Marker;
    var configdata := ReadFile(h, ConfigPath(h, recipient));
    if configdata.NotExist? {
      return Encrypter(h, Data(pgpdata), body);
    }
    if Contains(Data(configdata), subject) {
      var corepgp := Encrypter(h, Data(pgpdata), body);
      if corepgp.Err? {
        return corepgp;
      }
      WrapLayers(h, Data(pgpdata), body, 1);
      WrapLayers(h, Data(pgpdata), body, 0);
      return Encrypter(h, Data(pgpdata), corepgp.value);
    }
    return Ok(body);
  }

  /**
   * A session only delivers to one address: two recipients that each carry
   * an '@' always trip the multiple-recipient abort.
   */
  lemma TwoRecipientsAbort(to: seq<string>)
    requires |to| >= 2 && '@' in to[0] && '@' in to[1]
    ensures Count(Join(to, ""), '@') > 1
  {
    CountJoinFirstTwo(to, '@');
  }

  /** In particular a single RCPT argument naming two addresses is refused at DATA. */
  lemma CommaSeparatedRecipientsAbort(a: string, b: string)
    requires '@' in a && '@' in b && ',' !in a && ',' !in b
    ensures Count(Join(Split(a + "," + b, ','), ""), '@') > 1
  {
    SplitAfter(a, ',', b);
    SplitNoSep(b, ',');
    assert a + "," + b == a + [','] + b;
    TwoRecipientsAbort(Split(a + "," + b, ','));
  }
}
