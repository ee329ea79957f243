# sendmail-pgp in Dafny

A model of the decision-and-formatting core of sendmail-pgp. This is a drop-in
`sendmail` replacement that sends mail directly and PGP-encrypts the body when
the first recipient has a key file under `/keys`. Mail enters the core in two
ways, and both are modelled:

- **The command:** reads the body from standard input (`cmd/sendmail/main.go`).
- **The SMTP session:** receives MAIL FROM, RCPT TO and DATA (`cmd/sendmail/smtpsrv.go`).

Both paths build an envelope with the `sendmail` package (`sendmail.go`,
`util.go`) and drain the delivery results the transport yields.

Modules, one concern each:

- `Wrappers`: `Option` and `Result`.
- `GoStrings`: the `strings`/`bytes` functions the core calls. These are
  `Count`, `Split`, `Join`, `Contains` and `Trim`, plus the line-splitting facts
  the layouts rely on.
- `Base64`: standard base64 (section 4 of RFC 4648), together with a decoder
  proved to invert it.
- `Mail`: errors with their exact texts, addresses, headers, messages,
  `Config` and `Envelope`. It also holds the foreign parsers (`mail.ReadMessage`,
  `mail.ParseAddressList`) and the user and hostname lookups, as values of a
  `Library`.
- `Platform`: the host. This covers the `/keys` files as a map, the
  environment, the MD5 hasher, the PGP helpers and the transport's result
  stream. It also defines how the process ends early (`log.Fatal`, a runtime
  panic).
- `Util`: `GetDumbMessage` (both layouts, written buffer-write by
  buffer-write), `GetDomainFromAddress` and `AddressListToSlice`.
- `Domains`: the `-senderDomain` allow-list (`arrayDomains`) as a class whose
  `Set` grows it in place, and the authorisation rule.
- `Envelopes`: `NewEnvelope` (the parse fallback and the sender, subject and
  recipient precedence) and `GenerateMessage`.
- `Keys`: key-file paths, `encrypter`, and how many encryption layers each
  path applies.
- `Stdin`: the `ReadBytes('\n')` loop with its lone-dot terminator and `-i`.
- `Delivery`: the two loops that drain the results.
- `Command`: the package-level flags as a `Globals` object, and the command
  path.
- `Smtp`: the `Session` class with `Mail`, `Rcpt` and `Data`.

`util.go:25` declares `GetDumbMessage` with four parameters, but `sendmail.go:38`
calls it with three, so the sources as shown do not compile. The model keeps
the four-parameter function and assumes that `NewEnvelope` passes
`config.Subject` as the subject argument.

The code shows several quirks, and the model keeps each one:

- **Raw-string Content-Type:** the text at `util.go:33` is a Go raw string. It
  ends in the four characters `\r\n`, not a line break, so the `From` field
  shares its line.
- **Unclosed encoded-word:** the Subject value has no closing `?=`.
- **No blank separator:** `GenerateMessage` writes no blank line between the
  header and the body.
- **Rcpt overwrites:** `Rcpt` replaces earlier recipients instead of adding to
  them.
- **Double encryption:** the SMTP path encrypts twice when the config mentions
  the parsed subject.
- **Sticky subject:** the shared `subject` variable stays `"..."` once any key
  was found.

## Model

| member | source | states |
|---|---|---|
| Util.GetDumbMessage | util.go:25-63 | no recipients gives "empty recipients list"; otherwise the result is the parse of exactly the text the buffer writes produce (`DumbText`): the multipart layout for subject "...", the plain one otherwise |
| Util.PlainLines | util.go:54-61 | read back line by line, the plain text is a From line (only for a non-empty sender), the To line with the recipients comma-joined, one blank line, then the lines of the body followed by CRLF |
| Util.MultipartFirstLine | util.go:33-34 | the first line of the multipart text is the Content-Type text, its literal `\r\n`, and `From: ` + sender: the raw string does not end the line, even for an empty sender |
| Util.ContentTypeSingleLine | util.go:33 | the Content-Type text holds no line break |
| Util.GetDomainFromAddress | util.go:74-80 | the result never contains '@'; for an address with exactly one '@' it is the text after it (possibly empty), for none or several it is "" |
| Util.DomainOfAddress | util.go:74-80 | the domain of local@domain is domain whenever neither part has an '@' |
| Util.AddressListToSlice | util.go:66-71 | same length and order as the list, element i is the i-th bare address |
| Domains.DomainList.constructor | cmd/sendmail/main.go:47 | the allow-list starts empty |
| Domains.DomainList.String | cmd/sendmail/main.go:22-24 | every entry occurs in the comma-joined text, and splitting it on commas gives the entries back when they are comma-free |
| Domains.JoinPieces | cmd/sendmail/main.go:22-24 | each entry occurs in the entries joined with any separator |
| Domains.DomainList.Set | cmd/sendmail/main.go:26-29 | the value is appended after the existing entries and no error is returned |
| Domains.DomainList.Contains | cmd/sendmail/main.go:31-38 | true exactly when some entry equals the argument character for character |
| Envelopes.NewEnvelope | sendmail.go:34-92 | the header updates and recipient gathering, done step by step, give exactly the outcome `EnvelopeOf` states rule by rule |
| Envelopes.ParseFallback | sendmail.go:35-43 | an unparsable body is that parse error without explicit recipients; with recipients the envelope is built from the synthesized message |
| Envelopes.SenderPrecedence | sendmail.go:45-59 | a configured sender becomes the single From value; else an existing From stays; else From is user@hostname when both lookups succeed; else From is left as it was |
| Envelopes.SubjectField | sendmail.go:61-63 | a non-empty subject becomes the single encoded Subject value; an empty one leaves Subject as it was |
| Envelopes.OtherFieldsKept | sendmail.go:45-63 | every field other than From and Subject, and the body, pass through unchanged |
| Envelopes.RecipientPrecedence | sendmail.go:65-85 | explicit recipients are parsed as one comma-joined list, and a parse failure ends in "No recipients listed" rather than an error of its own; without them the list is To, then Cc, then Bcc, and only a To failure is returned |
| Envelopes.RecipientsIgnoreRewrite | sendmail.go:45-85 | rewriting From and Subject never changes the recipient list |
| Envelopes.RecipientsNonEmpty | sendmail.go:87-91 | an envelope always has a recipient; "No recipients listed" comes exactly from an empty resolved list (or from the synthesized message's own failure) |
| Envelopes.SubjectDecodes | sendmail.go:62 | the Subject value is "=?UTF-8?B?" followed by text that decodes back to the subject's bytes; a subject of byte characters is recovered exactly |
| Envelopes.SubjectUnterminated | sendmail.go:62 | for a non-empty subject the encoded-word never ends in "?=" |
| Envelopes.MarkerSubject | sendmail.go:62 | the encryption marker "..." is written as "=?UTF-8?B?Li4u" |
| Base64.Encode | sendmail.go:62 | the encoding is 4·⌈n/3⌉ characters, all from the alphabet or padding |
| Base64.DecodeEncode | sendmail.go:62 | decoding the encoding of any bytes gives those bytes back |
| Envelopes.FieldLines | sendmail.go:107-109 | one line per key in the given order, each the key, ": " and the values joined with commas |
| Envelopes.GenerateMessage | sendmail.go:102-116 | an empty header gives "Empty header"; otherwise every key is written exactly once, in some map order, then the body, then CRLF |
| Envelopes.GeneratedLines | sendmail.go:106-115 | read back line by line, the text is the field lines followed directly by the body's lines: no field line is blank, so nothing separates header from body |
| Keys.EncrypterChoice | cmd/sendmail/main.go:173-193 | encrypter signs exactly when the sender's .privpgp file exists, returns the chosen helper's armor, and fails with that helper's error |
| Keys.WrapLayers | cmd/sendmail/smtpsrv.go:91-92 | zero layers leave the body alone; each further layer encrypts the previous layer's armor |
| Keys.CommandAtMostOnce | cmd/sendmail/main.go:114-130 | the command encrypts at most once, never without the recipient's .pgp, and always once when there is no .config |
| Keys.EmptySubjectDoubles | cmd/sendmail/smtpsrv.go:88-92 | with a key and a config file, an empty parsed subject always means double encryption |
| Keys.PathsDiverge | cmd/sendmail/smtpsrv.go:83-92 | a config naming both "..." and the subject gives one layer on the command path and two on the session path |
| Keys.SameDigestSameDecision | cmd/sendmail/main.go:110-120 | the decision depends on the recipient only through its digest |
| Command.Globals.constructor | cmd/sendmail/main.go:40-52 | the flag values start as given |
| Command.EncryptCommandBody | cmd/sendmail/main.go:110-130 | the subject becomes "..." exactly when the recipient's .pgp exists, otherwise it is unchanged; the body gets the layers `CommandLayers` counts |
| Command.Deliver | cmd/sendmail/main.go:136-162 | an envelope error ends the process with its text; a missing From panics; a sender domain outside a non-empty allow-list ends it before sending; an envelope passing every check is the one sent, and its results are drained |
| Command.Refusal | cmd/sendmail/main.go:143-150 | the checks between building the envelope and sending it, in source order: the envelope error, the missing From, the unauthorised sender domain |
| Command.Run | cmd/sendmail/main.go:83-162 | a terminal stdin ends with "no stdin input"; no arguments panic; the subject follows the key lookup; an encryption failure or an empty body ends the process; otherwise the envelope built from the read, possibly encrypted body is sent exactly when it passes `Refusal`'s checks, and the refusal ends the process otherwise; the ignore-dot setting is unchanged |
| Stdin.ReadLine | cmd/sendmail/main.go:91 | up to and including the first line break, or everything left together with end of input |
| Stdin.CompleteLines | cmd/sendmail/main.go:91-94 | the lines read without error are complete lines forming a prefix of the input, leaving only a fragment without a line break |
| Stdin.UntilDot | cmd/sendmail/main.go:98-100 | all lines with -i; otherwise the longest prefix without a dot line, and the next line, if any, is one |
| Stdin.ReadBody | cmd/sendmail/main.go:88-103 | the loop accumulates exactly the complete lines before the first dot line (all of them with -i) |
| Stdin.DotLineExact | cmd/sendmail/main.go:98 | a complete line ends the body exactly when it is ".\n" |
| Stdin.FragmentDropped | cmd/sendmail/main.go:91-94 | a final fragment without a line break is never part of the body |
| Stdin.DotEndsBody | cmd/sendmail/main.go:98-100 | lines after a dot line never reach the body |
| Stdin.IgnoreDotKeepsAll | cmd/sendmail/main.go:98 | with -i the body is every complete line and a prefix of the input |
| Delivery.FirstSevere | cmd/sendmail/main.go:153-162 | the position of the first result below WarnLevel, all earlier ones being at or above it; none exactly when no result is below it |
| Delivery.LogOf | cmd/sendmail/main.go:155-158 | each result at or above WarnLevel gives one line: its message above WarnLevel, its error at WarnLevel |
| Delivery.DrainCommand | cmd/sendmail/main.go:152-162 | the results before the first severe one are logged, and that one ends the process with its error; without one, all are logged |
| Delivery.DrainSession | cmd/sendmail/smtpsrv.go:108-120 | the results before the first severe one are logged, and that one is logged as a warning and its error returned; without one, nil |
| Delivery.LaterResultsIgnored | cmd/sendmail/smtpsrv.go:115-117 | results after the first severe one never change the outcome |
| Smtp.Session.constructor | cmd/sendmail/smtpsrv.go:21-23 | a new session has no sender and no recipients |
| Smtp.Session.Mail | cmd/sendmail/smtpsrv.go:37-45 | a sender whose domain a non-empty allow-list lacks gets "unauthorized sender domain" and leaves From as it was; any other sender becomes From |
| Smtp.Session.Rcpt | cmd/sendmail/smtpsrv.go:48-51 | To becomes the argument split on commas, replacing earlier recipients; never an error |
| Smtp.EncryptSessionBody | cmd/sendmail/smtpsrv.go:78-96 | the subject becomes "..." exactly when the recipient's .pgp exists; the body gets the layers `SessionLayers` counts, the second wrapping the armor of the first; the ignore-dot setting is unchanged |
| Smtp.Session.Data | cmd/sendmail/smtpsrv.go:54-121 | more than one '@' among the recipients ends the process; no recipient panics; an unparsable message ends with "ohoh"; an encryption failure ends the process; an envelope error is returned without sending; an envelope that builds is the one sent, and the first severe result's error is returned, or nil; the ignore-dot setting is unchanged |
| Smtp.TwoRecipientsAbort | cmd/sendmail/smtpsrv.go:61-64 | any two recipients that both contain an '@' trip the multiple-recipient abort |
| Smtp.CommaSeparatedRecipientsAbort | cmd/sendmail/smtpsrv.go:49-62 | a single RCPT argument naming two addresses is refused at DATA |

## Left out

- **Foreign code:** the MD5 digest, the PGP helpers, `mail.ReadMessage`,
  `mail.ParseAddressList`, `parsemail.Parse` and the transport behind
  `Envelope.Send` are uninterpreted values of `Library` and `Host`. They are
  foreign code, and only their results matter to the core.
- **File reads:** a key file that exists but cannot be read takes the
  "present" branch with empty data, as `os.ReadFile` returns a nil slice with
  the error. Other I/O (standard input's terminal check, the environment,
  user and hostname lookups) becomes inputs.
- **Servers and concurrency:** the SMTP and HTTP listeners, `Backend`,
  `AuthPlain`, `Reset` and `Logout`, the goroutines, `select {}` and the
  `sync.WaitGroup` are left out. They are listener and concurrency plumbing
  with no decisions.
- **Logging and flags:** flag parsing, logrus configuration, `getLogFields`,
  the `print`/`fmt.Println` traces and every `log.Debug` line are left out.
  This includes the command's Debug-only "Multiple Recipients detected"
  message. Each is output only.
- **generateMessageID:** it depends on `crypto/rand` and nothing calls it.
- **WarnLevel:** its value is not among the modelled files. It is taken as 3
  (logrus numbering, smaller is more severe); only its order relative to the
  result levels matters.
- **Stdin.ReadBody:** read errors other than end of input (`main.go:95-97`)
  are not modelled, because standard input is a string here.
- **Envelopes.GenerateMessage:** the `ReadFrom` error path (`sendmail.go:110-113`)
  is not modelled, because the body is a string. Go's map iteration order is
  unspecified, so the order is a ghost output constrained only to visit every
  key once.
- **Envelopes.NewEnvelope:** the writes to `config.Sender` (`sendmail.go:48`,
  `sendmail.go:54`) are not returned to the caller; no caller reads them
  afterwards.
- **Smtp.Session.Data:**
  - The `ReadAll` error path (`smtpsrv.go:55-58`) is not modelled.
  - The first of the two `Send` calls (`smtpsrv.go:107`) is left out: it
    starts a delivery whose results nobody reads.
  - The parsed subject is an input, since `parsemail.Parse` reads a reader
    that `ReadAll` has already drained.
- Base64.ToBytes: Go strings are byte sequences, modelled as `string` with one
  character per byte. UTF-8 encoding of characters at or above 256 is not
  modelled: such a character keeps only its low byte. Envelopes.SubjectDecodes
  recovers the subject exactly only for byte strings.
- **Command.Run and Smtp.Session.Data:** `log.Fatal` and runtime panics are
  outcomes (`Exit`). The model does not stop a running process.
