/**
 * The data of the sendmail package (sendmail.go) and of the net/mail values it
 * handles: errors, addresses, header maps, messages, the Config handed to
 * NewEnvelope and the resulting Envelope.
 */
module Mail {
  import opened Wrappers
  import opened GoStrings

  /** The errors the core can return, with their exact texts. */
  datatype Error =
    | EmptyRecipientsList                    // GetDumbMessage with no recipients
    | NoRecipientsListed                     // NewEnvelope resolved no recipient
    | EmptyHeader                            // GenerateMessage on a header-less message
    | HeaderNotPresent                       // net/mail's Header.AddressList on a missing field
    | UnauthorizedSenderDomain(domain: string)  // Session.Mail refused the sender
    | Foreign(text: string)                  // an error raised by a library the core calls
  {
    function Text(): string
    {
      match this
      case EmptyRecipientsList => "empty recipients list"
      case NoRecipientsListed => "No recipients listed"
      case EmptyHeader => "Empty header"
      case HeaderNotPresent => "mail: header not in message"
      case UnauthorizedSenderDomain(d) => "unauthorized sender domain " + d
      case Foreign(t) => t
    }
  }

  /** mail.Address: a display name and the bare address. */
  datatype Address = Address(name: string, address: string)

  /** mail.Header: field name to its values. */
  type Header = map<string, seq<string>>

  /** mail.Message: the header and the (unread) body. */
  datatype Message = Message(header: Header, body: string)

  /** sendmail.Config. */
  datatype Config = Config(sender: string, recipients: seq<string>, subject: string, body: string)

  /** sendmail.Envelope: the message and the resolved recipient list. */
  datatype Envelope = Envelope(message: Message, recipients: seq<Address>)

  /**
   * The library calls the sendmail package relies on: mail.ReadMessage,
   * mail.ParseAddressList, user.Current().Username and os.Hostname() (None
   * when the call fails).
   */
  datatype Library = Library(
    readMessage: string -> Result<Message, Error>,
    parseAddressList: string -> Result<seq<Address>, Error>,
    currentUser: Option<string>,
    hostname: Option<string>)

  /** Header.Get: the first value of the field, or "" when it has none. */
  function HeaderGet(h: Header, key: string): (v: string)
    ensures v != "" ==> key in h && |h[key]| > 0 && v == h[key][0]
  {
    if key in h && |h[key]| > 0 then h[key][0] else ""
  }

  /** Header.AddressList: ErrHeaderNotPresent for an empty field, else the parsed list. */
  function AddressList(lib: Library, h: Header, key: string): Result<seq<Address>, Error>
  {
    var v := HeaderGet(h, key);
    if v == "" then Err(HeaderNotPresent) else lib.parseAddressList(v)
  }
}
