/**
 * sendmail.go: NewEnvelope, which turns a Config into a message with its
 * recipient list, and GenerateMessage, which writes a message back out as
 * text.
 */
module Envelopes {
  import opened Wrappers
  import opened GoStrings
  import opened Mail
  import Base64
  import opened Util

  /** The opening of an RFC 2047 encoded-word in UTF-8 with the "B" (base64) encoding. */
  const EncodedWordPrefix := "=?UTF-8?B?"

  /** The Subject value NewEnvelope writes; it has no closing "?=". */
  function EncodedSubject(subject: string): string
  {
    EncodedWordPrefix + Base64.Encode(Base64.ToBytes(subject))
  }

  /**
   * The message NewEnvelope starts from: the body parsed as a message, or,
   * when that fails and there are explicit recipients, the synthesized one
   * (GetDumbMessage is given config.Subject as its subject).
   */
  function ParsedOrDumb(config: Config, lib: Library): Result<Message, Error>
  {
    var parsed := lib.readMessage(config.body);
    if parsed.Ok? || |config.recipients| == 0 then parsed
    else lib.readMessage(DumbText(config.sender, config.recipients, config.subject, config.body))
  }

  /** The From value NewEnvelope writes, or None when it leaves the field as it is. */
  function SenderOf(config: Config, lib: Library, h: Header): Option<string>
  {
    if config.sender != "" then Some(config.sender)
    else if HeaderGet(h, "From") != "" then None
    else if lib.currentUser.Some? && lib.hostname.Some? then Some(lib.currentUser.value + "@" + lib.hostname.value)
    else None
  }

  /** The header after the From and Subject rules. */
  function Rewritten(config: Config, lib: Library, h: Header): Header
  {
    var withSender := match SenderOf(config, lib, h)
      case Some(s) => h["From" := [s]]
      case None => h;
    if config.subject != "" then withSender["Subject" := [EncodedSubject(config.subject)]] else withSender
  }

  /** What the rcpt closure contributes: the parsed field, or nothing. */
  function OrNil(list: Result<seq<Address>, Error>): seq<Address>
  {
    if list.Ok? then list.value else []
  }

  /**
   * The recipient list before the emptiness check: the explicit recipients
   * parsed as one comma-joined list (a parse failure leaves it empty), or else
   * To, Cc and Bcc of the header in that order (only To may fail).
   */
  function RecipientsOf(config: Config, lib: Library, h: Header): Result<seq<Address>, Error>
  {
    if |config.recipients| > 0 then
      Ok(OrNil(lib.parseAddressList(Join(config.recipients, ","))))
    else
      var to := AddressList(lib, h, "To");
      if to.Err? then Err(to.error)
      else Ok(to.value + OrNil(AddressList(lib, h, "Cc")) + OrNil(AddressList(lib, h, "Bcc")))
  }

  /** The outcome of NewEnvelope, stated rule by rule. */
  function EnvelopeOf(config: Config, lib: Library): Result<Envelope, Error>
  {
    match ParsedOrDumb(config, lib)
    case Err(e) => Err(e)
    case Ok(m) =>
      var h := Rewritten(config, lib, m.header);
      match RecipientsOf(config, lib, h)
      case Err(e) => Err(e)
      case Ok(list) =>
        if |list| == 0 then Err(NoRecipientsListed) else Ok(Envelope(Message(h, m.body), list))
  }

  /** NewEnvelope, rewriting the header and gathering the recipients step by step. */
  method NewEnvelope(config: Config, lib: Library) returns (r: Result<Envelope, Error>)
    ensures r == EnvelopeOf(config, lib)
  {
    var msg: Message;
    var parsed := lib.readMessage(config.body);
    if parsed.Err? {
      var dumb := parsed;
      if |config.recipients| > 0 {
        dumb := GetDumbMessage(lib, config.sender, config.recipients, config.subject, config.body);
      }
      if dumb.Err? {
        return Err(dumb.error);
      }
      msg := dumb.value;
    } else {
      msg := parsed.value;
    }

    var header := msg.header;
    var sender := config.sender;
    if sender != "" {
      header := header["From" := [sender]];
    } else {
      sender := HeaderGet(header, "From");
      if sender == "" {
        if lib.currentUser.Some? {
          if lib.hostname.Some? {
            sender := lib.currentUser.value + "@" + lib.hostname.value;
            header := header["From" := [sender]];
          }
        }
      }
    }

    if config.subject != "" {
      header := header["Subject" := [EncodedWordPrefix + Base64.Encode(Base64.ToBytes(config.subject))]];
    }

    var recipientsList: seq<Address> := [];
    if |config.recipients| > 0 {
      var recipient := lib.parseAddressList(Join(config.recipients, ","));
      if recipient.Ok? {
        recipientsList := recipient.value;
      }
    } else {
      var to := AddressList(lib, header, "To");
      if to.Err? {
        return Err(to.error);
      }
      recipientsList := to.value;
      recipientsList := recipientsList + OrNil(AddressList(lib, header, "Cc"));
      recipientsList := recipientsList + OrNil(AddressList(lib, header, "Bcc"));
    }

    if |recipientsList| == 0 {
      return Err(NoRecipientsListed);
    }
    return Ok(Envelope(Message(header, msg.body), recipientsList));
  }

  /**
   * A body that does not parse is an error when there are no explicit
   * recipients; with recipients, the synthesized message takes its place.
   */
  lemma ParseFallback(config: Config, lib: Library)
    requires lib.readMessage(config.body).Err?
    ensures |config.recipients| == 0 ==> EnvelopeOf(config, lib) == Err(lib.readMessage(config.body).error)
    ensures |config.recipients| > 0 && EnvelopeOf(config, lib).Ok? ==>
              var m := lib.readMessage(DumbText(config.sender, config.recipients, config.subject, config.body));
              m.Ok? && EnvelopeOf(config, lib).value.message.body == m.value.body
  {
  }

  /**
   * Sender precedence: the configured sender replaces From with one value;
   * otherwise an existing From stays; otherwise From becomes user@hostname
   * when both are known; otherwise the field is left as it was.
   */
  lemma SenderPrecedence(config: Config, lib: Library)
    requires EnvelopeOf(config, lib).Ok?
    ensures var m := ParsedOrDumb(config, lib).value.header;
            var h := EnvelopeOf(config, lib).value.message.header;
            && (config.sender != "" ==> "From" in h && h["From"] == [config.sender])
            && (config.sender == "" && HeaderGet(m, "From") != "" ==> "From" in h && h["From"] == m["From"])
            && (config.sender == "" && HeaderGet(m, "From") == "" && lib.currentUser.Some? && lib.hostname.Some?
                ==> "From" in h && h["From"] == [lib.currentUser.value + "@" + lib.hostname.value])
            && (config.sender == "" && HeaderGet(m, "From") == "" && (lib.currentUser.None? || lib.hostname.None?)
                ==> ("From" in h <==> "From" in m) && ("From" in m ==> h["From"] == m["From"]))
  {
  }

  /** A non-empty subject becomes the single encoded Subject value; an empty one changes nothing. */
  lemma SubjectField(config: Config, lib: Library)
    requires EnvelopeOf(config, lib).Ok?
    ensures var m := ParsedOrDumb(config, lib).value.header;
            var h := EnvelopeOf(config, lib).value.message.header;
            && (config.subject != "" ==> "Subject" in h && h["Subject"] == [EncodedSubject(config.subject)])
            && (config.subject == "" ==> ("Subject" in h <==> "Subject" in m) && ("Subject" in m ==> h["Subject"] == m["Subject"]))
  {
  }

  /** Every other field, and the body, pass through unchanged. */
  lemma OtherFieldsKept(config: Config, lib: Library)
    requires EnvelopeOf(config, lib).Ok?
    ensures var m := ParsedOrDumb(config, lib).value;
            var e := EnvelopeOf(config, lib).value;
            && e.message.body == m.body
            && (forall k :: k != "From" && k != "Subject" ==> (k in e.message.header <==> k in m.header))
            && (forall k :: k != "From" && k != "Subject" && k in m.header ==> e.message.header[k] == m.header[k])
  {
  }

  /**
   * Recipient precedence: explicit recipients are parsed as one list, and a
   * parse failure is not reported but ends in "No recipients listed";
   * without them the list is To, then Cc, then Bcc of the message, and only
   * a To failure is an error.
   */
  lemma RecipientPrecedence(config: Config, lib: Library)
    requires ParsedOrDumb(config, lib).Ok?
    ensures var m := ParsedOrDumb(config, lib).value.header;
            var parsed := lib.parseAddressList(Join(config.recipients, ","));
            var to := AddressList(lib, m, "To");
            && (|config.recipients| > 0 && parsed.Err? ==> EnvelopeOf(config, lib) == Err(NoRecipientsListed))
            && (|config.recipients| > 0 && parsed.Ok? && |parsed.value| > 0 ==>
                  EnvelopeOf(config, lib).Ok? && EnvelopeOf(config, lib).value.recipients == parsed.value)
            && (|config.recipients| == 0 && to.Err? ==> EnvelopeOf(config, lib) == Err(to.error))
            && (|config.recipients| == 0 && to.Ok? && EnvelopeOf(config, lib).Ok? ==>
                  EnvelopeOf(config, lib).value.recipients
                  == to.value + OrNil(AddressList(lib, m, "Cc")) + OrNil(AddressList(lib, m, "Bcc")))
  {
    var m := ParsedOrDumb(config, lib).value.header;
    RecipientsIgnoreRewrite(config, lib, m);
  }

  /** Rewriting From and Subject leaves the recipient fields alone. */
  lemma RecipientsIgnoreRewrite(config: Config, lib: Library, m: Header)
    ensures RecipientsOf(config, lib, Rewritten(config, lib, m)) == RecipientsOf(config, lib, m)
  {
    var h := Rewritten(config, lib, m);
    assert HeaderGet(h, "To") == HeaderGet(m, "To");
    assert HeaderGet(h, "Cc") == HeaderGet(m, "Cc");
    assert HeaderGet(h, "Bcc") == HeaderGet(m, "Bcc");
  }

  /** An envelope always has a recipient; an empty list is the error "No recipients listed". */
  lemma RecipientsNonEmpty(config: Config, lib: Library)
    ensures EnvelopeOf(config, lib).Ok? ==> |EnvelopeOf(config, lib).value.recipients| > 0
    ensures EnvelopeOf(config, lib) == Err(NoRecipientsListed) <==>
              || ParsedOrDumb(config, lib) == Err(NoRecipientsListed)
              || (ParsedOrDumb(config, lib).Ok? &&
                  var h := Rewritten(config, lib, ParsedOrDumb(config, lib).value.header);
                  var list := RecipientsOf(config, lib, h);
                  list == Err(NoRecipientsListed) || list == Ok([]))
  {
  }

  /**
   * The Subject value is the encoded-word prefix followed by text that
   * decodes back to the subject's bytes; for a subject whose characters all
   * stand for bytes, those bytes read as a string are the subject itself.
   */
  lemma SubjectDecodes(subject: string)
    ensures var v := EncodedSubject(subject);
            |v| >= |EncodedWordPrefix| && v[..|EncodedWordPrefix|] == EncodedWordPrefix
            && Base64.Decode(v[|EncodedWordPrefix|..]) == Some(Base64.ToBytes(subject))
    ensures var v := EncodedSubject(subject);
            Base64.IsByteString(subject) ==>
              Base64.FromBytes(Base64.Decode(v[|EncodedWordPrefix|..]).value) == subject
  {
    var v := EncodedSubject(subject);
    var text := Base64.Encode(Base64.ToBytes(subject));
    assert v[|EncodedWordPrefix|..] == text;
    Base64.DecodeEncode(Base64.ToBytes(subject));
    if Base64.IsByteString(subject) {
      Base64.FromToBytes(subject);
    }
  }

  /**
   * The encoded-word is never closed: for a non-empty subject the value does
   * not end in "?=", because '?' is not a base64 character.
   */
  lemma SubjectUnterminated(subject: string)
    requires subject != ""
    ensures var v := EncodedSubject(subject);
            |v| >= 2 && v[|v| - 2..] != "?="
  {
    var text := Base64.Encode(Base64.ToBytes(subject));
    var v := EncodedSubject(subject);
    assert |text| >= 4;
    assert v[|v| - 2] == text[|text| - 2];
    assert Base64.IsAlphabet(text[|text| - 2]) || text[|text| - 2] == Base64.Pad;
    assert v[|v| - 2..][0] == v[|v| - 2];
  }

  /** The subject "..." that marks an encrypted body is written as "=?UTF-8?B?Li4u". */
  lemma MarkerSubject()
    ensures EncodedSubject(Marker) == "=?UTF-8?B?Li4u"
  {
    var b := Base64.ToBytes(Marker);
    assert b == [46, 46, 46];
    var text := Base64.Encode(b);
    Base64.EncodeOfThree(46, 46, 46);
    assert 46 / 4 == 11 && (46 % 4) * 16 + 46 / 16 == 34 && (46 % 16) * 4 + 46 / 64 == 56 && 46 % 64 == 46;
    assert text == [Base64.Char(11), Base64.Char(34), Base64.Char(56), Base64.Char(46)];
    assert Base64.Char(11) == 'L' && Base64.Char(34) == 'i' && Base64.Char(56) == '4' && Base64.Char(46) == 'u';
    assert text == "Li4u";
  }

  // ---------------------------------------------------------------------------
  // GenerateMessage

  /** One header line: the key, ": ", and the values joined with commas. */
  function FieldLine(h: Header, key: string): (line: string)
    requires key in h
    ensures key + ": " <= line && |line| >= 2
  {
    key + ": " + Join(h[key], ",")
  }

  /** The header lines for the keys in the given order. */
  function FieldLines(h: Header, order: seq<string>): (lines: seq<string>)
    requires forall i :: 0 <= i < |order| ==> order[i] in h
    ensures |lines| == |order|
    ensures forall i :: 0 <= i < |order| ==> lines[i] == FieldLine(h, order[i])
  {
    if order == [] then [] else [FieldLine(h, order[0])] + FieldLines(h, order[1..])
  }

  /** A way Go's map iteration can visit the header: every key exactly once. */
  predicate IsIterationOrder(h: Header, order: seq<string>)
  {
    && (forall k :: k in h ==> k in order)
    && (forall i :: 0 <= i < |order| ==> order[i] in h)
    && (forall i, j :: 0 <= i < j < |order| ==> order[i] != order[j])
  }

  /**
   * GenerateMessage: "Empty header" for a message without fields; otherwise
   * one line per field in some iteration order of the map, then the body,
   * then a CRLF.
   */
  method GenerateMessage(e: Envelope) returns (r: Result<string, Error>, ghost order: seq<string>)
    ensures |e.message.header| == 0 ==> r == Err(EmptyHeader)
    ensures |e.message.header| > 0 ==>
              && IsIterationOrder(e.message.header, order)
              && r == Ok(CrlfLines(FieldLines(e.message.header, order)) + e.message.body + "\r\n")
  {
    var h := e.message.header;
    order := [];
    if |h| == 0 {
      return Err(EmptyHeader), order;
    }
    var buf := "";
    var remaining := h.Keys;
    while remaining != {}
      invariant remaining <= h.Keys
      invariant forall k :: k in h ==> (k in order <==> k !in remaining)
      invariant forall i :: 0 <= i < |order| ==> order[i] in h
      invariant forall i, j :: 0 <= i < j < |order| ==> order[i] != order[j]
      invariant buf == CrlfLines(FieldLines(h, order))
      decreases |remaining|
    {
      var key :| key in remaining;
      FieldWritten(h, order, key, buf);
      buf := buf + (key + ": " + Join(h[key], ",") + "\r\n");
      order := order + [key];
      remaining := remaining - {key};
    }
    buf := buf + e.message.body;
    buf := buf + "\r\n";
    return Ok(buf), order;
  }

  /** Writing one more field line extends the text of the lines written so far. */
  lemma FieldWritten(h: Header, order: seq<string>, key: string, buf: string)
    requires key in h && forall i :: 0 <= i < |order| ==> order[i] in h
    requires buf == CrlfLines(FieldLines(h, order))
    ensures buf + (key + ": " + Join(h[key], ",") + "\r\n") == CrlfLines(FieldLines(h, order + [key]))
  {
    CrlfLinesAppend(FieldLines(h, order), FieldLine(h, key));
    assert FieldLines(h, order + [key]) == FieldLines(h, order) + [FieldLine(h, key)];
  }

  /** No field value or name contains a line break. */
  predicate SingleLineHeader(h: Header)
  {
    forall k :: k in h ==> '\n' !in k && forall i :: 0 <= i < |h[k]| ==> '\n' !in h[k][i]
  }

  /**
   * Read back line by line, the generated text is the field lines and then
   * the body's lines: no field line is blank, so no empty line separates
   * the header from the body.
   */
  lemma GeneratedLines(h: Header, order: seq<string>, body: string)
    requires SingleLineHeader(h)
    requires forall i :: 0 <= i < |order| ==> order[i] in h
    ensures forall i :: 0 <= i < |order| ==> FieldLines(h, order)[i] != ""
    ensures Split(CrlfLines(FieldLines(h, order)) + body + "\r\n", '\n')
         == WithCR(FieldLines(h, order)) + Split(body + "\r\n", '\n')
  {
    var lines := FieldLines(h, order);
    forall i | 0 <= i < |lines|
      ensures '\n' !in lines[i]
    {
      var k := order[i];
      JoinFree(h[k], ",", '\n');
      assert lines[i] == k + (": " + Join(h[k], ","));
    }
    SplitCrlfLines(lines, body + "\r\n");
    assert CrlfLines(lines) + body + "\r\n" == CrlfLines(lines) + (body + "\r\n");
  }
}
