/**
 * The behaviour the client's own examples pin down, stated on the model:
 * each lemma is one group of them.
 */
module Examples {
  import opened Wrappers
  import opened Fields
  import opened Request
  import opened Reply
  import FormEncoding
  import Client

  function WithKey(key: string): Options { NoOptions.(key := Some(key)) }
  function WithMessage(message: string): Options { NoOptions.(message := Some(message)) }
  function WithTo(to: string): Options { NoOptions.(to := Some(to)) }
  function WithRoute(route: string): Options { NoOptions.(route := Some(route)) }

  /** The key and a plain message are stored and read back verbatim. */
  lemma KeyAndMessageExamples()
    ensures New(WithKey("myapikey")) == Ok(Defaults.(key := Some("myapikey")))
    ensures New(WithMessage("mymessage")) == Ok(Defaults.(message := Some("mymessage")))
    ensures FormEncoding.Encode("mymessage") == "mymessage"
  {
    FormEncoding.EncodeUnreserved("mymessage");
  }

  /** The message and sender readers form-encode `f$oo bar` as `f%24oo+bar`. */
  lemma EncodedReaderExamples()
    ensures New(WithMessage("f$oo bar")) == Ok(Defaults.(message := Some("f$oo bar")))
    ensures New(WithRoute("gold").(from := Some("f$oo bar"))) == Ok(Defaults.(route := Gold, from := Some("f$oo bar")))
    ensures FormEncoding.Encode("f$oo bar") == "f%24oo+bar"
  {
    FormEncoding.EncodeExample();
  }

  lemma NewWithTo(s: string)
    ensures New(WithTo(s)) == (match NormalizeRecipient(s)
      case Ok(t) => Ok(Defaults.(to := Some(t)))
      case Err(e) => Err(e))
  {
  }

  /** The recipient is stored normalised, and a recipient with letters is refused. */
  lemma RecipientExamples()
    ensures New(WithTo("123456")) == Ok(Defaults.(to := Some("123456")))
    ensures New(WithTo("12 34  56")) == Ok(Defaults.(to := Some("123456")))
    ensures New(WithTo("12-34-56")) == Ok(Defaults.(to := Some("123456")))
    ensures New(WithTo("(123)456")) == Ok(Defaults.(to := Some("123456")))
    ensures New(WithTo("+49 12345")) == Ok(Defaults.(to := Some("+4912345")))
    ensures New(WithTo("123456abc")) == Err(InvalidFormat)
  {
    NormalizeRecipientPlainExample();
    NewWithTo("123456");
    NormalizeRecipientSpacesExample();
    NewWithTo("12 34  56");
    NormalizeRecipientDashesExample();
    NewWithTo("12-34-56");
    NormalizeRecipientParenthesesExample();
    NewWithTo("(123)456");
    NormalizeRecipientPrefixExample();
    NewWithTo("+49 12345");
    NormalizeRecipientLetterExample();
    NewWithTo("123456abc");
  }

  /** A sender is taken on the gold and direct routes only, and only up to 16 characters. */
  lemma SenderExamples()
    ensures New(WithRoute("gold").(from := Some("123456789101"))) == Ok(Defaults.(route := Gold, from := Some("123456789101")))
    ensures New(WithRoute("direct").(from := Some("123456"))) == Ok(Defaults.(route := Direct, from := Some("123456")))
    ensures New(NoOptions.(from := Some("123456"))) == Err(InvalidOption)
    ensures New(WithRoute("gold").(from := Some("ab cd sdfsesj1234"))) == Err(InvalidFormat)
  {
    ValidateSenderExamples();
  }

  /** The all-digit senders of the examples are form-encoded as themselves. */
  lemma LongDigitSenderEncoding()
    ensures FormEncoding.Encode("123456789101") == "123456789101"
  {
    FormEncoding.EncodeUnreserved("123456789101");
  }

  lemma ShortDigitSenderEncoding()
    ensures FormEncoding.Encode("123456") == "123456"
  {
    FormEncoding.EncodeUnreserved("123456");
  }

  /** The readers of an object holding the examples' message and sender. */
  lemma ReaderExamples(sms: Client.SmsTrade)
    ensures sms.message == Some("mymessage") ==> sms.Message() == Some("mymessage")
    ensures sms.message == Some("f$oo bar") ==> sms.Message() == Some("f%24oo+bar")
    ensures sms.from == Some("f$oo bar") ==> sms.From() == Some("f%24oo+bar")
    ensures sms.from == Some("123456789101") ==> sms.From() == Some("123456789101")
    ensures sms.from == Some("123456") ==> sms.From() == Some("123456")
  {
    KeyAndMessageExamples();
    EncodedReaderExamples();
    LongDigitSenderEncoding();
    ShortDigitSenderEncoding();
  }

  /** Route basic by default, an explicit route kept, an unknown one refused. */
  lemma RouteExamples()
    ensures New(WithRoute("gold")) == Ok(Defaults.(route := Gold))
    ensures New(NoOptions) == Ok(Defaults) && Defaults.route == Basic
    ensures New(WithRoute("eeek_invalid")) == Err(InvalidRoute)
  {
  }

  /** The flags as 1 and 0, concat off by default, and a character set always present. */
  lemma FlagExamples()
    ensures New(NoOptions.(debug := Some(true))) == Ok(Defaults.(debug := 1))
    ensures New(NoOptions.(debug := Some(false))) == Ok(Defaults.(debug := 0))
    ensures New(NoOptions) == Ok(Defaults) && Defaults.concat == 0 && Defaults.charset != []
    ensures New(NoOptions.(concat := Some(true))) == Ok(Defaults.(concat := 1))
  {
  }

  /** The object the send examples start from: route basic, key `mykey`, debug off, concat as given. */
  function SendBase(concat: Option<bool>): Options {
    NoOptions.(route := Some("basic"), key := Some("mykey"), debug := Some(false), concat := concat)
  }

  lemma ApplyRecipientAndMessage(st: Settings, to: string, message: string)
    requires NormalizeRecipient(to).Ok?
    ensures Apply(st, WithTo(to).(message := Some(message)))
      == Ok(st.(to := Some(NormalizeRecipient(to).value), message := Some(message)))
  {
  }

  /**
   * Sending with a recipient override puts the normalised number in the
   * request, with the message as given, and concat set to true goes out as "1".
   */
  lemma SendRequestExamples(concat: Option<bool>, message: string)
    ensures New(SendBase(concat)).Ok?
    ensures Apply(New(SendBase(concat)).value, WithTo("+12 34-567").(message := Some(message))).Ok?
    ensures var sent := Apply(New(SendBase(concat)).value, WithTo("+12 34-567").(message := Some(message))).value;
      && OutboundParams(sent)["to"] == "+1234567"
      && OutboundParams(sent)["message"] == message
      && (concat == Some(true) ==> OutboundParams(sent)["concat"] == "1")
  {
    var base := New(SendBase(concat)).value;
    NormalizeRecipientSendExample();
    ApplyRecipientAndMessage(base, "+12 34-567", message);
    var sent := Apply(base, WithTo("+12 34-567").(message := Some(message))).value;
    OutboundParamsFlags(sent);
    OutboundParamsOptional(sent);
  }

  /** A provider that answers 999 yields a response with code 999. */
  lemma SendResponseExample()
    ensures Respond(Some("999")) == Ok(Response(999, "999"))
  {
    assert Decimal(999) == "999";
    RespondCode(999, "");
    assert "999" + "" == "999";
  }
}
