/**
 * The command-line path of cmd/sendmail/main.go: read the body from standard
 * input, decide on encryption from the first recipient's key files, build the
 * envelope, check the sender's domain against the allow-list and drain the
 * delivery results. The package-level flag values live in a Globals object,
 * which the SMTP sessions share.
 */
module Command {
  import opened Wrappers
  import opened GoStrings
  import opened Mail
  import opened Platform
  import opened Util
  import opened Domains
  import opened Envelopes
  import opened Delivery
  import opened Keys
  import opened Stdin

  /** The package-level variables the core reads and writes: `-s`, `-i` and `-senderDomain`. */
  class Globals {
    var subject: string
    var ignoreDot: bool
    const senderDomains: DomainList

    constructor (subject: string, ignoreDot: bool, senderDomains: DomainList)
      ensures this.subject == subject && this.ignoreDot == ignoreDot && this.senderDomains == senderDomains
    {
      this.subject := subject;
      this.ignoreDot := ignoreDot;
      this.senderDomains := senderDomains;
    }
  }

  /**
   * The decision at main.go:110-130: with the recipient's public key the
   * subject becomes "..." and the body gets the layers CommandLayers counts;
   * without it nothing changes.
   */
  method EncryptCommandBody(g: Globals, h: Host, recipient: string, body: string) returns (r: Result<string, Exit>)
    modifies g
    ensures g.subject == if KeyFound(h, recipient) then Marker else old(g.subject)
    ensures g.ignoreDot == old(g.ignoreDot)
    ensures r == Wrap(h, Data(ReadFile(h, PublicKeyPath(h, recipient))), body, CommandLayers(h, recipient))
  {
    var pgpdata := ReadFile(h, PublicKeyPath(h, recipient));
    if pgpdata.NotExist? {
      return Ok(body);
    }
    g.subject := Marker;
    var configdata := ReadFile(h, ConfigPath(h, recipient));
    if configdata.NotExist? {
      return Encrypter(h, Data(pgpdata), body);
    }
    if Contains(Data(configdata), g.subject) {
      return Encrypter(h, Data(pgpdata), body);
    }
    return Ok(body);
  }

  /** The body after the encryption decision, as the command computes it. */
  function CommandBody(h: Host, stdin: string, ignoreDot: bool, recipient: string): Result<string, Exit>
  {
    Wrap(h, Data(ReadFile(h, PublicKeyPath(h, recipient))), Body(stdin, ignoreDot), CommandLayers(h, recipient))
  }

  /** The Config main hands to NewEnvelope. */
  function CommandConfig(h: Host, args: seq<string>, subject: string, body: string): Config
  {
    Config(Getenv(h, SmartLogin), args, subject, body)
  }

  /**
   * The checks main makes between building the envelope and sending it
   * (main.go:143-150): how the process ends when one fails, None when the
   * envelope may be sent. An empty allow-list authorises every domain.
   */
  function Refusal(e: Result<Envelope, Error>, allowed: seq<string>): (r: Option<Exit>)
    ensures r.None? <==>
              e.Ok? && "From" in e.value.message.header && |e.value.message.header["From"]| > 0
              && Authorizes(allowed, GetDomainFromAddress(e.value.message.header["From"][0]))
    ensures r.Some? ==> r.value.Fatal? || r.value == Panic(IndexOutOfRange)
    ensures |allowed| == 0 && e.Ok? && "From" in e.value.message.header && |e.value.message.header["From"]| > 0 ==> r.None?
  {
    if e.Err? then Some(Fatal(e.error.Text()))
    else if !("From" in e.value.message.header && |e.value.message.header["From"]| > 0) then Some(Panic(IndexOutOfRange))
    else
      var domain := GetDomainFromAddress(e.value.message.header["From"][0]);
      if !Authorizes(allowed, domain) then Some(Fatal("Attempt to unauthorized send with domain " + domain))
      else None
  }

  /**
   * main.go:136-162: build the envelope, refuse a sender domain outside a
   * non-empty allow-list, then send and drain. `sent` is the envelope
   * handed to Send, if the run gets that far.
   */
  method Deliver(g: Globals, h: Host, args: seq<string>, body: string)
    returns (log: seq<LogLine>, exit: Option<Exit>, ghost sent: Option<Envelope>)
    ensures var e := EnvelopeOf(CommandConfig(h, args, g.subject, body), h.lib);
            Refusal(e, g.senderDomains.domains).Some? ==> exit == Refusal(e, g.senderDomains.domains) && sent.None?
    ensures var e := EnvelopeOf(CommandConfig(h, args, g.subject, body), h.lib);
            Refusal(e, g.senderDomains.domains).None? ==> sent == Some(e.value)
    ensures sent.Some? ==> Ok(sent.value) == EnvelopeOf(CommandConfig(h, args, g.subject, body), h.lib)
    ensures exit.None? ==> sent.Some?
    ensures sent.Some? ==> "From" in sent.value.message.header && |sent.value.message.header["From"]| > 0
    ensures sent.Some? ==> Authorizes(g.senderDomains.domains, GetDomainFromAddress(sent.value.message.header["From"][0]))
    ensures sent.Some? ==> (exit.None? <==> FirstSevere(h.send(sent.value)).None?)
    ensures sent.Some? && exit.None? ==> log == LogOf(h.send(sent.value))
    ensures sent.Some? && FirstSevere(h.send(sent.value)).Some? ==>
              var results := h.send(sent.value);
              var k := FirstSevere(results).value;
              exit == Some(Fatal(ErrorText(results[k].error))) && log == LogOf(results[..k])
  {
    log, sent := [], None;
    var envelope := NewEnvelope(CommandConfig(h, args, g.subject, body), h.lib);
    if envelope.Err? {
      return log, Some(Fatal(envelope.error.Text())), sent;
    }
    var header := envelope.value.message.header;
    if !("From" in header && |header["From"]| > 0) {
      return log, Some(Panic(IndexOutOfRange)), sent;
    }
    var senderDomain := GetDomainFromAddress(header["From"][0]);
    if |g.senderDomains.domains| > 0 {
      var allowed := g.senderDomains.Contains(senderDomain);
      if !allowed {
        return log, Some(Fatal("Attempt to unauthorized send with domain " + senderDomain)), sent;
      }
    }
    var results := h.send(envelope.value);
    sent := Some(envelope.value);
    log, exit := DrainCommand(results);
  }

  /**
   * The non-server branch of main (main.go:83-162); `log` and `exit` are what
   * the result drain logs and how the process ends (None: normally).
   */
  method Run(g: Globals, stdinIsTerminal: bool, stdin: string, args: seq<string>, h: Host)
    returns (log: seq<LogLine>, exit: Option<Exit>, ghost sent: Option<Envelope>)
    modifies g
    ensures g.ignoreDot == old(g.ignoreDot)
    ensures stdinIsTerminal ==> exit == Some(Fatal("no stdin input")) && sent.None? && g.subject == old(g.subject)
    ensures !stdinIsTerminal && |args| == 0 ==> exit == Some(Panic(IndexOutOfRange)) && sent.None?
    ensures !stdinIsTerminal && |args| > 0 ==>
              g.subject == if KeyFound(h, args[0]) then Marker else old(g.subject)
    ensures !stdinIsTerminal && |args| > 0 && CommandBody(h, stdin, old(g.ignoreDot), args[0]).Err? ==>
              exit == Some(CommandBody(h, stdin, old(g.ignoreDot), args[0]).error) && sent.None?
    ensures !stdinIsTerminal && |args| > 0 && CommandBody(h, stdin, old(g.ignoreDot), args[0]) == Ok("") ==>
              exit == Some(Fatal("Empty message body")) && sent.None?
    ensures !stdinIsTerminal && |args| > 0 && CommandBody(h, stdin, old(g.ignoreDot), args[0]).Ok?
            && CommandBody(h, stdin, old(g.ignoreDot), args[0]).value != "" ==>
              var e := EnvelopeOf(CommandConfig(h, args, g.subject, CommandBody(h, stdin, old(g.ignoreDot), args[0]).value), h.lib);
              && (Refusal(e, g.senderDomains.domains).Some? ==> exit == Refusal(e, g.senderDomains.domains) && sent.None?)
              && (Refusal(e, g.senderDomains.domains).None? ==> sent == Some(e.value))
    ensures sent.Some? ==> |args| > 0 && CommandBody(h, stdin, old(g.ignoreDot), args[0]).Ok?
    ensures sent.Some? ==>
              Ok(sent.value) == EnvelopeOf(CommandConfig(h, args, g.subject, CommandBody(h, stdin, old(g.ignoreDot), args[0]).value), h.lib)
    ensures exit.None? ==> sent.Some?
    ensures sent.Some? ==> "From" in sent.value.message.header && |sent.value.message.header["From"]| > 0
    ensures sent.Some? ==> Authorizes(g.senderDomains.domains, GetDomainFromAddress(sent.value.message.header["From"][0]))
    ensures sent.Some? ==> (exit.None? <==> FirstSevere(h.send(sent.value)).None?)
    ensures sent.Some? && exit.None? ==> log == LogOf(h.send(sent.value))
    ensures sent.Some? && FirstSevere(h.send(sent.value)).Some? ==>
              var results := h.send(sent.value);
              var k := FirstSevere(results).value;
              exit == Some(Fatal(ErrorText(results[k].error))) && log == LogOf(results[..k])
  {
    log, sent := [], None;
    if stdinIsTerminal {
      return log, Some(Fatal("no stdin input")), sent;
    }
    var body := ReadBody(stdin, g.ignoreDot);
    if |args| == 0 {
      return log, Some(Panic(IndexOutOfRange)), sent;
    }
    var encrypted := EncryptCommandBody(g, h, args[0], body);
    if encrypted.Err? {
      return log, Some(encrypted.error), sent;
    }
    body := encrypted.value;
    if |body| == 0 {
      return log, Some(Fatal("Empty message body")), sent;
    }
    log, exit, sent := Deliver(g, h, args, body);
  }
}
