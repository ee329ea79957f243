/** util.go: the synthesized fallback message and the address helpers. */
module Util {
  import opened Wrappers
  import opened GoStrings
  import opened Mail

  /** The subject that marks an encrypted body. */
  const Marker := "..."

  /**
   * The first line of the PGP/MIME layout. It is a Go raw string, so its
   * trailing \r\n is four ordinary characters and not a line break.
   */
  const ContentTypeRaw := "Content-Type: multipart/encrypted; " + "boundary=\"ca4\"; "
                          + "protocol=\"application/pgp-encrypted\"" + "\\r\\n"

  /** The header lines of the plain layout: From only for a sender, then To. */
  function PlainHeaders(sender: string, recipients: seq<string>): seq<string>
  {
    (if sender != "" then ["From: " + sender] else []) + ["To: " + Join(recipients, ",")]
  }

  /** The plain layout: headers, a blank line, the body and a final CRLF. */
  function PlainText(sender: string, recipients: seq<string>, body: string): string
  {
    CrlfLines(PlainHeaders(sender, recipients) + [""]) + body + "\r\n"
  }

  /** The message header lines of the PGP/MIME layout, ending with the blank line. */
  function MultipartHeaders(sender: string, recipients: seq<string>): seq<string>
  {
    [ContentTypeRaw + "From: " + sender, "To: " + Join(recipients, ","), "Subject: ...", ""]
  }

  /** The control part of the PGP/MIME layout (section 4 of RFC 3156). */
  const ControlPart: seq<string> := ["--ca4", "content-type: application/pgp-encrypted", "", "Version: 1", ""]

  /** The headers of the data part, which the body follows. */
  const DataPartHead: seq<string> := ["--ca4", "content-type: application/octet-stream", ""]

  /** What follows the body in the PGP/MIME layout: two CRLFs and the closing boundary. */
  const MultipartTail := "\r\n\r\n--ca4--\r\n"

  function MultipartText(sender: string, recipients: seq<string>, body: string): string
  {
    CrlfLines(MultipartHeaders(sender, recipients)) + CrlfLines(ControlPart) + CrlfLines(DataPartHead)
      + body + MultipartTail
  }

  /** The raw text GetDumbMessage hands to mail.ReadMessage. */
  function DumbText(sender: string, recipients: seq<string>, subject: string, body: string): string
  {
    if subject == Marker then MultipartText(sender, recipients, body) else PlainText(sender, recipients, body)
  }

  /**
   * GetDumbMessage: an error for an empty recipient list, otherwise the parse
   * of the synthesized text, written step by step into a buffer.
   */
  method GetDumbMessage(lib: Library, sender: string, recipients: seq<string>, subject: string, body: string)
    returns (r: Result<Message, Error>)
    ensures |recipients| == 0 ==> r == Err(EmptyRecipientsList)
    ensures |recipients| > 0 ==> r == lib.readMessage(DumbText(sender, recipients, subject, body))
  {
    if |recipients| == 0 {
      return Err(EmptyRecipientsList);
    }
    if subject == Marker {
      var buf := "";
      buf := buf + ContentTypeRaw;
      buf := buf + ("From: " + sender + "\r\n");
      buf := buf + ("To: " + Join(recipients, ",") + "\r\n");
      buf := buf + "Subject: ...\r\n";
      buf := buf + "\r\n";
      HeadersWritten(sender, recipients, buf);
      ghost var head := buf;
      buf := buf + "--ca4\r\n";
      buf := buf + "content-type: application/pgp-encrypted\r\n";
      buf := buf + "\r\n";
      buf := buf + "Version: 1\r\n";
      buf := buf + "\r\n";
      ControlWritten(head, buf);
      ghost var control := buf;
      buf := buf + "--ca4\r\n";
      buf := buf + "content-type: application/octet-stream\r\n";
      buf := buf + "\r\n";
      DataHeadWritten(control, buf);
      ghost var dataHead := buf;
      buf := buf + body;
      buf := buf + "\r\n";
      buf := buf + "\r\n";
      buf := buf + "--ca4--\r\n";
      TailWritten(dataHead, body, buf);
      return lib.readMessage(buf);
    }
    var buf := "";
    if sender != "" {
      buf := buf + ("From: " + sender + "\r\n");
    }
    buf := buf + ("To: " + Join(recipients, ",") + "\r\n");
    buf := buf + "\r\n";
    buf := buf + body;
    buf := buf + "\r\n";
    PlainWrites(sender, recipients, body, buf);
    return lib.readMessage(buf);
  }

  /** Writing one more CRLF-terminated line extends the text of the lines written so far. */
  lemma AddLine(lines: seq<string>, line: string, buf: string) returns (lines': seq<string>)
    requires buf == CrlfLines(lines)
    ensures lines' == lines + [line]
    ensures buf + (line + "\r\n") == CrlfLines(lines')
  {
    lines' := lines + [line];
    CrlfLinesAppend(lines, line);
  }

  lemma PlainWrites(sender: string, recipients: seq<string>, body: string, buf: string)
    requires buf == (if sender != "" then "From: " + sender + "\r\n" else "")
                    + ("To: " + Join(recipients, ",") + "\r\n") + "\r\n" + body + "\r\n"
    ensures buf == PlainText(sender, recipients, body)
  {
    var to := "To: " + Join(recipients, ",");
    if sender != "" {
      ThreeLines("From: " + sender, to, "");
      assert PlainHeaders(sender, recipients) + [""] == ["From: " + sender, to, ""];
    } else {
      TwoLines(to, "");
      assert PlainHeaders(sender, recipients) + [""] == [to, ""];
    }
  }

  lemma HeadersWritten(sender: string, recipients: seq<string>, buf: string)
    requires buf == "" + ContentTypeRaw + ("From: " + sender + "\r\n") + ("To: " + Join(recipients, ",") + "\r\n")
                    + "Subject: ...\r\n" + "\r\n"
    ensures buf == CrlfLines(MultipartHeaders(sender, recipients))
  {
    FourLines(ContentTypeRaw + "From: " + sender, "To: " + Join(recipients, ","), "Subject: ...", "");
  }

  lemma ControlWritten(head: string, buf: string)
    requires buf == head + "--ca4\r\n" + "content-type: application/pgp-encrypted\r\n" + "\r\n"
                    + "Version: 1\r\n" + "\r\n"
    ensures buf == head + CrlfLines(ControlPart)
  {
    FiveLines("--ca4", "content-type: application/pgp-encrypted", "", "Version: 1", "");
  }

  lemma DataHeadWritten(control: string, buf: string)
    requires buf == control + "--ca4\r\n" + "content-type: application/octet-stream\r\n" + "\r\n"
    ensures buf == control + CrlfLines(DataPartHead)
  {
    ThreeLines("--ca4", "content-type: application/octet-stream", "");
  }

  lemma TwoLines(l0: string, l1: string)
    ensures CrlfLines([l0, l1]) == l0 + "\r\n" + l1 + "\r\n"
  {
    var ls := AddLine([], l0, "");
    ls := AddLine(ls, l1, l0 + "\r\n");
    assert ls == [l0, l1];
  }

  lemma ThreeLines(l0: string, l1: string, l2: string)
    ensures CrlfLines([l0, l1, l2]) == l0 + "\r\n" + l1 + "\r\n" + l2 + "\r\n"
  {
    var ls := AddLine([], l0, "");
    ls := AddLine(ls, l1, l0 + "\r\n");
    ls := AddLine(ls, l2, l0 + "\r\n" + l1 + "\r\n");
    assert ls == [l0, l1, l2];
  }

  lemma FourLines(l0: string, l1: string, l2: string, l3: string)
    ensures CrlfLines([l0, l1, l2, l3]) == l0 + "\r\n" + l1 + "\r\n" + l2 + "\r\n" + l3 + "\r\n"
  {
    ThreeLines(l0, l1, l2);
    var ls := AddLine([l0, l1, l2], l3, l0 + "\r\n" + l1 + "\r\n" + l2 + "\r\n");
    assert ls == [l0, l1, l2, l3];
  }

  lemma FiveLines(l0: string, l1: string, l2: string, l3: string, l4: string)
    ensures CrlfLines([l0, l1, l2, l3, l4]) == l0 + "\r\n" + l1 + "\r\n" + l2 + "\r\n" + l3 + "\r\n" + l4 + "\r\n"
  {
    FourLines(l0, l1, l2, l3);
    var ls := AddLine([l0, l1, l2, l3], l4, l0 + "\r\n" + l1 + "\r\n" + l2 + "\r\n" + l3 + "\r\n");
    assert ls == [l0, l1, l2, l3, l4];
  }

  lemma TailWritten(dataHead: string, body: string, buf: string)
    requires buf == dataHead + body + "\r\n" + "\r\n" + "--ca4--\r\n"
    ensures buf == dataHead + body + MultipartTail
  {
  }

  /**
   * The plain layout read line by line: the header lines, then the blank line
   * that ends the header section, then the lines of the body.
   */
  lemma PlainLines(sender: string, recipients: seq<string>, body: string)
    requires '\n' !in sender
    requires forall i :: 0 <= i < |recipients| ==> '\n' !in recipients[i]
    ensures Split(PlainText(sender, recipients, body), '\n')
         == WithCR(PlainHeaders(sender, recipients)) + ["\r"] + Split(body + "\r\n", '\n')
  {
    JoinFree(recipients, ",", '\n');
    var headers := PlainHeaders(sender, recipients);
    assert SingleLines(headers);
    SplitHeaderBlock(headers, body + "\r\n");
    assert PlainText(sender, recipients, body) == CrlfLines(headers + [""]) + (body + "\r\n");
  }

  /**
   * In the PGP/MIME layout the Content-Type text ends with the four characters
   * \r\n rather than a line break, so the first line of the message carries
   * both the Content-Type text and the From field.
   */
  lemma MultipartFirstLine(sender: string, recipients: seq<string>, body: string)
    requires '\n' !in sender
    ensures Split(MultipartText(sender, recipients, body), '\n')[0] == ContentTypeRaw + "From: " + sender + "\r"
  {
    var first := ContentTypeRaw + "From: " + sender;
    var text := MultipartText(sender, recipients, body);
    var tail := text[|first| + 2..];
    assert text == first + "\r\n" + tail;
    assert '\n' !in first + "\r" by {
      ContentTypeSingleLine();
    }
    SplitStep(first, tail, text);
  }

  lemma ContentTypeSingleLine()
    ensures '\n' !in ContentTypeRaw
  {
    var field, protocol := "Content-Type: multipart/encrypted; ", "protocol=\"application/pgp-encrypted\"";
    assert |field| == 35;
    assert forall i :: 0 <= i < |field| ==> field[i] != '\n';
    assert |protocol| == 36;
    assert forall i :: 0 <= i < |protocol| ==> protocol[i] != '\n';
  }

  /**
   * GetDomainFromAddress: the text after the '@' of an address that has
   * exactly one; "" for an address with none or with several.
   */
  function GetDomainFromAddress(address: string): (domain: string)
    ensures '@' !in domain
    ensures Count(address, '@') != 1 ==> domain == ""
    ensures Count(address, '@') == 1 ==>
              |domain| < |address| && address[|address| - |domain| - 1] == '@'
              && address[|address| - |domain|..] == domain
  {
    var components := Split(address, '@');
    if |components| == 2 then
      JoinSplit(address, '@');
      assert address == components[0] + "@" + components[1];
      components[1]
    else ""
  }

  /** The domain of local@domain is domain, whenever neither part has an '@'. */
  lemma DomainOfAddress(local: string, domain: string)
    requires '@' !in local && '@' !in domain
    ensures GetDomainFromAddress(local + "@" + domain) == domain
  {
    SplitAfter(local, '@', domain);
    SplitNoSep(domain, '@');
  }

  /** AddressListToSlice: the bare addresses of the list, in order. */
  method AddressListToSlice(list: seq<Address>) returns (slice: seq<string>)
    ensures |slice| == |list|
    ensures forall i :: 0 <= i < |list| ==> slice[i] == list[i].address
  {
    slice := [];
    for i := 0 to |list|
      invariant |slice| == i
      invariant forall j :: 0 <= j < i ==> slice[j] == list[j].address
    {
      slice := slice + [list[i].address];
    }
  }
}
