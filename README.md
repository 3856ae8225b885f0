# SMSTradeRB request builder, modelled in Dafny

SMSTradeRB is a Ruby client for an SMS-sending HTTP API. An `SMSTradeRB`
object holds the fields of one request (`key`, `to`, `from`, `message`,
`route`, `debug`, `concat`, `charset`), checks and normalises them as they
are set, and `send(overrides)` applies the overrides, calls the provider once
and returns a `Response` whose `code` is the provider's status.

The implementation of SMSTradeRB is not part of this model; its behaviour is
taken from the examples in `spec/smstraderb_spec.rb`. The model follows them;
where they are silent it makes the choices listed here and under "Left out":

- `to`: whitespace, dashes and parentheses are removed; what remains must be
  an optional `+` followed by one or more digits, else `InvalidFormat`. The
  `to` reader returns the normalised number as it is: line 38 reads `+49 12345`
  back as `+4912345`, with no `%2B` for the `+`.
- `from`: accepted only on route `gold` or `direct` (else `InvalidOption`) and
  only up to 16 characters, counted on the value as given, else
  `InvalidFormat`. The value is not stripped: `f$oo bar` keeps its space, and
  `ab cd sdfsesj1234` (17 characters, 15 without spaces) is refused. Two
  examples force this: line 63 refuses that 17-character sender, which
  would fit if spaces were removed first, and line 118 reads `f$oo bar` back
  as `f%24oo+bar`, with its space still there.
- `route`: `basic`, `gold` or `direct`, `basic` by default, anything else
  `InvalidRoute`.
- `debug` and `concat` are 1 or 0; `concat` is 0 unless set; `charset` always
  has a value.
- The `message` and `from` readers return the stored text form-encoded, as
  the application/x-www-form-urlencoded serializer of section 5.2 of the WHATWG
  URL Standard does it: space becomes `+`, and every character other than
  ASCII letters, digits, `*`, `-`, `.` and `_` becomes the percent-encoding of
  its UTF-8 bytes with upper-case hexadecimal digits (section 2.1 of RFC 3986).
  The examples fix only `$` as `%24` and space as `+` (line 112); the rest of
  the character set is the model's choice.

Modules, one per file:

- `Wrappers` (wrappers.dfy): `Option` and `Result`.
- `Utf8` (utf8.dfy): UTF-8 encoding and a strict decoder, with the round trip.
- `FormEncoding` (form_encoding.dfy): the form serializer the readers apply and
  the matching parser, with the round trip.
- `Fields` (fields.dfy): the errors, the route enumeration, recipient
  normalisation, the sender gate, the 0/1 flags.
- `Reply` (reply.dfy): the provider's reply body and its leading status code.
- `Request` (request.dfy): options, settings, how options are applied, and the
  parameters of the outbound request.
- `Client` (client.dfy): the `SmsTrade` class, whose constructor, `Configure`
  and `Send` update its fields and are specified by the functions of `Request`.
- `Examples` (examples.dfy): the library's own examples, stated on the model.

Options are applied in the order route, `to`, `from`, flags, message, key; the
first option refused decides the error, and a refused set of options changes
nothing (a field is never half-updated). The `from` check uses the route in
force after the same call's `route` option. The examples never give two bad
options at once or look at an object after a refusal, so this order and the
all-or-nothing refusal are choices of the model.

## Model

| member | source | states |
|---|---|---|
| `Fields.ParseRoute` | spec/smstraderb_spec.rb:77-81 | a route name that is not a route is refused with InvalidRoute |
| `Fields.ParseRouteExactly` | spec/smstraderb_spec.rb:68-82 | the accepted names are exactly basic, gold and direct, each parsed to its own route; every other name is refused |
| `Fields.StripRemovesSeparators` | spec/smstraderb_spec.rb:25-35 | the stripped recipient contains no whitespace, dash or parenthesis and is no longer than the input |
| `Fields.StripAppend` | spec/smstraderb_spec.rb:25-35 | stripping distributes over concatenation, so it removes separators wherever they stand |
| `Fields.StripNoSeparators` | spec/smstraderb_spec.rb:15-17 | a recipient without separators is kept unchanged |
| `Fields.StripIdempotent` | spec/smstraderb_spec.rb:25-35 | stripping twice is stripping once |
| `Fields.StripKeeps` | spec/smstraderb_spec.rb:25-39 | every character that is not a separator survives stripping |
| `Fields.NormalizeRecipient` | spec/smstraderb_spec.rb:14-40 | an accepted recipient is an optional `+` and one or more digits with no separators; a refusal is InvalidFormat |
| `Fields.NormalizeRecipientRejectsLetters` | spec/smstraderb_spec.rb:19-23 | a recipient containing a letter anywhere is refused with InvalidFormat |
| `Fields.NormalizeRecipientAccepts` | spec/smstraderb_spec.rb:25-39 | an optional `+` then digits mixed with separators, with at least one digit, is accepted as the prefix followed by the stripped digits |
| `Fields.NormalizeRecipientIdempotent` | spec/smstraderb_spec.rb:14-40 | normalising an accepted recipient again gives the same result |
| `Fields.NormalizeRecipientDigits` | spec/smstraderb_spec.rb:15-17 | a non-empty run of digits is accepted unchanged |
| `Fields.NormalizeRecipientPlainExample` | spec/smstraderb_spec.rb:15-17 | `123456` is stored as `123456` |
| `Fields.NormalizeRecipientSpacesExample` | spec/smstraderb_spec.rb:25-27 | `12 34  56` is stored as `123456` |
| `Fields.NormalizeRecipientDashesExample` | spec/smstraderb_spec.rb:29-31 | `12-34-56` is stored as `123456` |
| `Fields.NormalizeRecipientParenthesesExample` | spec/smstraderb_spec.rb:33-35 | `(123)456` is stored as `123456` |
| `Fields.NormalizeRecipientPrefixExample` | spec/smstraderb_spec.rb:37-39 | `+49 12345` is stored as `+4912345` |
| `Fields.NormalizeRecipientSendExample` | spec/smstraderb_spec.rb:127-130 | `+12 34-567` is normalised to `+1234567` |
| `Fields.NormalizeRecipientLetterExample` | spec/smstraderb_spec.rb:19-23 | `123456abc` is refused with InvalidFormat |
| `Fields.ValidateSender` | spec/smstraderb_spec.rb:42-65 | a sender is accepted exactly on route gold or direct with at most 16 characters as given, and kept unchanged; otherwise InvalidOption on another route, InvalidFormat when too long |
| `Fields.ValidateSenderExamples` | spec/smstraderb_spec.rb:43-65 | `123456789101` on gold and `123456` on direct are kept, `123456` on basic is InvalidOption, `ab cd sdfsesj1234` on gold is InvalidFormat |
| `Fields.FlagValue` | spec/smstraderb_spec.rb:85-93 | a flag is 1 exactly when it is set to true, else 0 |
| `Utf8.EncodeChar` | spec/smstraderb_spec.rb:110-120 | a character takes one to four bytes, one exactly when it is ASCII, with continuation bytes after the first |
| `Utf8.DecodeEncode` | spec/smstraderb_spec.rb:110-120 | decoding the UTF-8 bytes of any text gives the text back |
| `FormEncoding.Encode` | spec/smstraderb_spec.rb:110-120 | the encoded text consists only of unreserved characters, `+` and `%` |
| `FormEncoding.PercentByte` | spec/smstraderb_spec.rb:110-113 | a byte is written as `%` and two upper-case hexadecimal digits whose value is the byte |
| `FormEncoding.DecodeEncode` | spec/smstraderb_spec.rb:110-120 | parsing the encoded text gives the original text back |
| `FormEncoding.EncodeInjective` | spec/smstraderb_spec.rb:110-120 | two texts with the same encoding are the same text |
| `FormEncoding.EncodeAppend` | spec/smstraderb_spec.rb:110-120 | encoding distributes over concatenation: each character is encoded on its own |
| `FormEncoding.EncodeUnreserved` | spec/smstraderb_spec.rb:10-12 | text made of letters, digits and `*-._` is read back verbatim |
| `FormEncoding.EncodeExample` | spec/smstraderb_spec.rb:111-112 | `f$oo bar` is encoded as `f%24oo+bar` |
| `Reply.Decimal` | spec/smstraderb_spec.rb:153-159 | the numeral of a code is a non-empty string of digits |
| `Reply.ParseCode` | spec/smstraderb_spec.rb:153-159 | a reply has a code exactly when it starts with a digit |
| `Reply.Respond` | spec/smstraderb_spec.rb:153-159 | a missing reply is TransportFailure; a response keeps the whole body and its code is the body's leading number |
| `Reply.NumeralValueDecimal` | spec/smstraderb_spec.rb:153-159 | reading back the numeral of a code gives the code |
| `Reply.RespondCode` | spec/smstraderb_spec.rb:153-159 | a reply that starts with the numeral of a code, followed by nothing or by a non-digit, yields a response with that code |
| `Request.Apply` | spec/smstraderb_spec.rb:5-108 | applying options keeps the character set and leaves every setting whose option is absent as it was |
| `Request.ApplySucceeds` | spec/smstraderb_spec.rb:14-82 | options are accepted exactly when route, `to` and `from` each pass their rule (from against the resulting route), and then each given option is stored: key and message as given, route by its name, `to` stripped, `from` as given, flags as 1 or 0 |
| `Request.ApplyFails` | spec/smstraderb_spec.rb:19-81 | a bad route is InvalidRoute whatever else is given; with the route accepted, a bad recipient is InvalidFormat; with route and recipient accepted, a sender is InvalidOption when the route in force after the call (given or current) is basic, and InvalidFormat when it is longer than 16 characters |
| `Request.ApplyPreservesInvariant` | spec/smstraderb_spec.rb:14-66 | after any accepted options, `to` is a phone number, `from` has at most 16 characters and the character set is non-empty |
| `Request.ApplyIdempotent` | spec/smstraderb_spec.rb:122-151 | re-applying the same overrides changes nothing more |
| `Request.ApplyNoOptions` | spec/smstraderb_spec.rb:73-75 | applying no options leaves the settings as they are |
| `Request.NewDefaults` | spec/smstraderb_spec.rb:73-108 | a new object without options has route basic, debug and concat 0 and a non-empty character set |
| `Request.BitString` | spec/smstraderb_spec.rb:143-151 | a flag is sent as "1" when it is 1 and as "0" when it is 0 |
| `Request.OutboundParams` | spec/smstraderb_spec.rb:122-151 | the request holds route, debug, concat and charset always, key, to and message exactly when set, from exactly when set on route gold or direct, and no other parameter |
| `Request.OutboundParamsFixed` | spec/smstraderb_spec.rb:126-136 | the route parameter is the route's name and the charset parameter the character set in force |
| `Request.OutboundParamsFlags` | spec/smstraderb_spec.rb:143-151 | the debug and concat parameters are "1" when the flag is on and "0" when it is off |
| `Request.OutboundParamsOptional` | spec/smstraderb_spec.rb:122-141 | key, to, message and (on gold or direct) from carry their stored values; `to` goes out normalised |
| `Client.SmsTrade.constructor` | spec/smstraderb_spec.rb:73-75 | a new object has the default settings |
| `Client.SmsTrade.Configure` | spec/smstraderb_spec.rb:5-108 | the fields become the accepted options applied to them, or stay as they were and the error is returned |
| `Client.SmsTrade.Create` | spec/smstraderb_spec.rb:5-108 | `SMSTradeRB.new(options)` gives a fresh valid object holding the options applied to the defaults, or the error |
| `Client.SmsTrade.Message` | spec/smstraderb_spec.rb:110-114 | the message reader is present exactly when a message is stored, is the form encoding of the stored text, and parses back to it |
| `Client.SmsTrade.From` | spec/smstraderb_spec.rb:116-120 | the sender reader is present exactly when a sender is stored, is the form encoding of the stored sender, and parses back to it |
| `Client.SmsTrade.Send` | spec/smstraderb_spec.rb:122-160 | refused overrides change nothing and return their error; accepted ones are stored, and the result is the provider's reply to the outbound parameters, read as a response |
| `Examples.NewWithTo` | spec/smstraderb_spec.rb:14-40 | a new object given only `to` holds its normalised form, or fails as normalisation does |
| `Examples.KeyAndMessageExamples` | spec/smstraderb_spec.rb:6-12 | `myapikey` and `mymessage` are stored and read back verbatim |
| `Examples.EncodedReaderExamples` | spec/smstraderb_spec.rb:110-120 | `f$oo bar` is stored raw as message and as gold sender, and reads back as `f%24oo+bar` |
| `Examples.RecipientExamples` | spec/smstraderb_spec.rb:14-40 | each recipient example gives the stated object or InvalidFormat |
| `Examples.SenderExamples` | spec/smstraderb_spec.rb:42-65 | each sender example gives the stated object or error |
| `Examples.LongDigitSenderEncoding` | spec/smstraderb_spec.rb:44-46 | the sender `123456789101` form-encodes to itself |
| `Examples.ShortDigitSenderEncoding` | spec/smstraderb_spec.rb:50-52 | the sender `123456` form-encodes to itself |
| `Examples.ReaderExamples` | spec/smstraderb_spec.rb:10-120 | on any object, the message reader gives `mymessage` for `mymessage` and `f%24oo+bar` for `f$oo bar`; the sender reader gives `f%24oo+bar` for `f$oo bar` and the digit senders unchanged |
| `Examples.RouteExamples` | spec/smstraderb_spec.rb:68-82 | gold is kept, basic is the default, `eeek_invalid` is InvalidRoute |
| `Examples.FlagExamples` | spec/smstraderb_spec.rb:84-108 | debug true is 1 and false 0, concat defaults to 0 and true is 1, charset is present |
| `Examples.ApplyRecipientAndMessage` | spec/smstraderb_spec.rb:126-127 | overriding `to` and `message` stores the normalised number and the message and nothing else |
| `Examples.SendRequestExamples` | spec/smstraderb_spec.rb:122-151 | the send examples put `+1234567` as `to`, the message as given, and "1" as concat when concat is true |
| `Examples.SendResponseExample` | spec/smstraderb_spec.rb:153-159 | a provider reply `999` yields a response with code 999 |

## Left out

- The HTTP exchange itself (connection, query-string wire encoding, the provider endpoint) and the mock provider of the examples: `Send` takes the provider as a function from the decoded request parameters to the reply body, or None when the exchange fails.
- The exact character set name: the model uses `UTF-8`, and only its presence is known; there is no option to change it.
- The exact format of the provider's reply: the model reads the leading decimal digits as the code and refuses a reply without them with MalformedResponse.
- Ruby truthiness of `debug` and `concat`: the options are booleans.
- Options other than the seven recognised ones are not represented; route names are the strings of the Ruby symbols.
- `concat` is always sent (as "0" or "1"); whether the library omits it when unset is not known.
- The set of characters left unescaped (the WHATWG set, which keeps `*` and escapes `~`; Ruby's `CGI.escape` and `URI.encode_www_form_component` differ on exactly these two), the order in which route, `to` and `from` are checked, and the refusal of a whole set of options when one is bad: no example shows any of them, so each is a modelling choice.
- Characters are Unicode scalar values; the form encoding works on their UTF-8 bytes and does not model strings in other Ruby encodings.
