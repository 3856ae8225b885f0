/**
 * The per-field rules of the SMSTradeRB client: the route enumeration, the
 * normalisation and shape check of the recipient (`to`), the gate and length
 * bound on the sender (`from`) and the 0/1 coercion of `debug` and `concat`.
 */
module Fields {
  import opened Wrappers

  /** The ways a request can be refused. The first three come from the field rules. */
  datatype Error =
    | InvalidFormat      // a value does not have the required shape or length
    | InvalidOption      // a value set where it is not permitted (`from` on route basic)
    | InvalidRoute       // a route outside basic, gold and direct
    | TransportFailure   // the HTTP exchange with the provider did not complete
    | MalformedResponse  // the provider's reply does not start with a status code

  /** The provider's delivery tiers. */
  datatype Route = Basic | Gold | Direct

  /** The symbol by which the caller names a route (`:basic`, `:gold`, `:direct`). */
  function RouteName(r: Route): string {
    match r
    case Basic => "basic"
    case Gold => "gold"
    case Direct => "direct"
  }

  /** Reads a route option; any name other than the three routes is InvalidRoute. */
  function ParseRoute(name: string): (r: Result<Route, Error>)
    ensures r.Err? ==> r.error == InvalidRoute
  {
    if name == "basic" then Ok(Basic)
    else if name == "gold" then Ok(Gold)
    else if name == "direct" then Ok(Direct)
    else Err(InvalidRoute)
  }

  /** ParseRoute accepts exactly the names of the routes, each as its own route. */
  lemma ParseRouteExactly(name: string, route: Route)
    ensures ParseRoute(name) == Ok(route) <==> name == RouteName(route)
    ensures ParseRoute(name).Err? <==> name !in {"basic", "gold", "direct"}
  {
  }

  /** Only the gold and direct routes let the caller choose the sender. */
  predicate AllowsSender(r: Route) {
    r == Gold || r == Direct
  }

  /** The longest sender the provider takes. */
  const MaxSenderLength: nat := 16

  // ---------------------------------------------------------------- recipient

  /** Whitespace (as in a regular expression's `\s`), dashes and parentheses. */
  predicate IsSeparator(c: char) {
    c == ' ' || c == '\t' || c == '\n' || c == '\r' || c == '\U{000B}' || c == '\U{000C}'
    || c == '-' || c == '(' || c == ')'
  }

  predicate IsDigit(c: char) {
    '0' <= c <= '9'
  }

  predicate IsLetter(c: char) {
    ('a' <= c <= 'z') || ('A' <= c <= 'Z')
  }

  predicate NoSeparators(s: string) {
    forall i :: 0 <= i < |s| ==> !IsSeparator(s[i])
  }

  predicate AllDigits(s: string) {
    forall i :: 0 <= i < |s| ==> IsDigit(s[i])
  }

  /** The shape of a normalised phone number: an optional `+`, then one or more digits. */
  predicate IsPhoneNumber(s: string) {
    if |s| > 0 && s[0] == '+' then |s| > 1 && AllDigits(s[1..])
    else |s| > 0 && AllDigits(s)
  }

  /** s with every separator removed. */
  function Strip(s: string): string
  {
    if s == [] then []
    else if IsSeparator(s[0]) then Strip(s[1..])
    else [s[0]] + Strip(s[1..])
  }

  /** The stripped text contains no separator and is no longer than the input. */
  lemma {:induction false} StripRemovesSeparators(s: string)
    ensures |Strip(s)| <= |s|
    ensures NoSeparators(Strip(s))
  {
    if s != [] {
      StripRemovesSeparators(s[1..]);
    }
  }

  /** Normalises and checks a recipient; a result that is not a phone number is InvalidFormat. */
  function NormalizeRecipient(s: string): (r: Result<string, Error>)
    ensures r.Ok? ==> IsPhoneNumber(r.value) && NoSeparators(r.value)
    ensures r.Err? ==> r.error == InvalidFormat
  {
    var t := Strip(s);
    StripRemovesSeparators(s);
    if IsPhoneNumber(t) then Ok(t) else Err(InvalidFormat)
  }

  lemma StripCons(c: char, s: string)
    ensures Strip([c] + s) == if IsSeparator(c) then Strip(s) else [c] + Strip(s)
  {
    assert ([c] + s)[1..] == s;
  }

  /** Stripping works piece by piece: it distributes over concatenation. */
  lemma {:induction false} StripAppend(a: string, b: string)
    ensures Strip(a + b) == Strip(a) + Strip(b)
  {
    if a == [] {
      assert a + b == b;
    } else {
      assert (a + b)[0] == a[0] && (a + b)[1..] == a[1..] + b;
      StripAppend(a[1..], b);
      if !IsSeparator(a[0]) {
        assert [a[0]] + (Strip(a[1..]) + Strip(b)) == ([a[0]] + Strip(a[1..])) + Strip(b);
      }
    }
  }

  /** Text without separators is left as it is. */
  lemma {:induction false} StripNoSeparators(s: string)
    requires NoSeparators(s)
    ensures Strip(s) == s
  {
    if s != [] {
      StripNoSeparators(s[1..]);
      assert s == [s[0]] + s[1..];
    }
  }

  /** Stripping twice is stripping once. */
  lemma StripIdempotent(s: string)
    ensures Strip(Strip(s)) == Strip(s)
  {
    StripRemovesSeparators(s);
    StripNoSeparators(Strip(s));
  }

  /** Every character that is not a separator survives stripping. */
  lemma {:induction false} StripKeeps(s: string, i: nat)
    requires i < |s| && !IsSeparator(s[i])
    ensures s[i] in Strip(s)
  {
    if i > 0 {
      StripKeeps(s[1..], i - 1);
      StripCons(s[0], s[1..]);
      assert s == [s[0]] + s[1..];
    } else {
      StripCons(s[0], s[1..]);
      assert s == [s[0]] + s[1..];
    }
  }

  /** A recipient that contains a letter is always refused with InvalidFormat. */
  lemma NormalizeRecipientRejectsLetters(s: string, i: nat)
    requires i < |s| && IsLetter(s[i])
    ensures NormalizeRecipient(s) == Err(InvalidFormat)
  {
    StripKeeps(s, i);
    var t := Strip(s);
    var j :| 0 <= j < |t| && t[j] == s[i];
  }

  /** Digits and separators only: stripping leaves only the digits. */
  lemma {:induction false} StripDigitsAndSeparators(s: string)
    requires forall i :: 0 <= i < |s| ==> IsDigit(s[i]) || IsSeparator(s[i])
    ensures AllDigits(Strip(s))
    ensures (exists i :: 0 <= i < |s| && IsDigit(s[i])) ==> Strip(s) != []
  {
    if s != [] {
      StripDigitsAndSeparators(s[1..]);
      StripCons(s[0], s[1..]);
      assert s == [s[0]] + s[1..];
      if exists i :: 0 <= i < |s| && IsDigit(s[i]) {
        var i :| 0 <= i < |s| && IsDigit(s[i]);
        if i > 0 && IsSeparator(s[0]) {
          assert IsDigit(s[1..][i - 1]);
        }
      }
    }
  }

  /**
   * An optional `+` followed by digits interspersed with separators, with at
   * least one digit, is accepted, and the result is the input stripped.
   */
  lemma NormalizeRecipientAccepts(prefix: string, body: string)
    requires prefix == "" || prefix == "+"
    requires forall i :: 0 <= i < |body| ==> IsDigit(body[i]) || IsSeparator(body[i])
    requires exists i :: 0 <= i < |body| && IsDigit(body[i])
    ensures NormalizeRecipient(prefix + body) == Ok(prefix + Strip(body))
  {
    StripDigitsAndSeparators(body);
    StripAppend(prefix, body);
    StripNoSeparators(prefix);
    var t := prefix + Strip(body);
    if prefix == "+" {
      assert t[1..] == Strip(body);
    } else {
      assert t == Strip(body);
    }
  }

  /** Normalising a normalised recipient changes nothing. */
  lemma NormalizeRecipientIdempotent(s: string)
    requires NormalizeRecipient(s).Ok?
    ensures NormalizeRecipient(NormalizeRecipient(s).value) == NormalizeRecipient(s)
  {
    StripIdempotent(s);
  }

  /** Text with no separators is kept and a run of separators dropped. */
  lemma StripSplit(a: string, sep: string, b: string)
    requires NoSeparators(a)
    requires forall i :: 0 <= i < |sep| ==> IsSeparator(sep[i])
    ensures Strip(a + sep + b) == a + Strip(b)
  {
    StripAppend(a + sep, b);
    StripAppend(a, sep);
    StripNoSeparators(a);
    StripOnlySeparators(sep);
    assert Strip(a + sep) == a;
  }

  lemma {:induction false} StripOnlySeparators(s: string)
    requires forall i :: 0 <= i < |s| ==> IsSeparator(s[i])
    ensures Strip(s) == []
  {
    if s != [] {
      StripOnlySeparators(s[1..]);
    }
  }

  lemma NormalizeRecipientOk(s: string, t: string)
    requires Strip(s) == t && IsPhoneNumber(t)
    ensures NormalizeRecipient(s) == Ok(t)
  {
  }

  /** Two runs without separators joined by a space are joined without it. */
  lemma StripJoin(a: string, b: string)
    requires NoSeparators(a) && NoSeparators(b)
    ensures Strip(a + " " + b) == a + b
  {
    StripNoSeparators(b);
    StripSplit(a, " ", b);
  }

  /** A non-empty run of digits is accepted unchanged. */
  lemma NormalizeRecipientDigits(s: string)
    requires s != [] && AllDigits(s)
    ensures NormalizeRecipient(s) == Ok(s)
  {
    StripNoSeparators(s);
  }

  /** A recipient that is already a plain number is kept. */
  lemma NormalizeRecipientPlainExample()
    ensures NormalizeRecipient("123456") == Ok("123456")
  {
    assert AllDigits("123456");
    NormalizeRecipientDigits("123456");
  }

  lemma StripSpacesTail()
    ensures Strip("34  56") == "3456"
  {
    StripNoSeparators("56");
    assert "34  56" == "34" + "  " + "56";
    StripSplit("34", "  ", "56");
  }

  lemma StripSpaces()
    ensures Strip("12 34  56") == "123456"
  {
    StripSpacesTail();
    assert "12 34  56" == "12" + " " + "34  56";
    StripSplit("12", " ", "34  56");
    assert "12" + "3456" == "123456";
  }

  /** Spaces are removed from the recipient. */
  lemma NormalizeRecipientSpacesExample()
    ensures NormalizeRecipient("12 34  56") == Ok("123456")
  {
    StripSpaces();
    NormalizeRecipientOk("12 34  56", "123456");
  }

  lemma StripDashesTail()
    ensures Strip("34-56") == "3456"
  {
    StripNoSeparators("56");
    assert "34-56" == "34" + "-" + "56";
    StripSplit("34", "-", "56");
  }

  lemma StripDashes()
    ensures Strip("12-34-56") == "123456"
  {
    StripDashesTail();
    assert "12-34-56" == "12" + "-" + "34-56";
    StripSplit("12", "-", "34-56");
    assert "12" + "3456" == "123456";
  }

  /** Dashes are removed from the recipient. */
  lemma NormalizeRecipientDashesExample()
    ensures NormalizeRecipient("12-34-56") == Ok("123456")
  {
    StripDashes();
    NormalizeRecipientOk("12-34-56", "123456");
  }

  lemma StripParenthesesTail()
    ensures Strip("123)456") == "123456"
  {
    StripNoSeparators("456");
    assert "123)456" == "123" + ")" + "456";
    StripSplit("123", ")", "456");
    assert "123" + "456" == "123456";
  }

  lemma StripParentheses()
    ensures Strip("(123)456") == "123456"
  {
    StripParenthesesTail();
    assert "(123)456" == "" + "(" + "123)456";
    StripSplit("", "(", "123)456");
  }

  /** Parentheses are removed from the recipient. */
  lemma NormalizeRecipientParenthesesExample()
    ensures NormalizeRecipient("(123)456") == Ok("123456")
  {
    StripParentheses();
    NormalizeRecipientOk("(123)456", "123456");
  }

  lemma StripPrefix()
    ensures Strip("+49 12345") == "+4912345"
  {
    assert "+49 12345" == "+49" + " " + "12345";
    StripJoin("+49", "12345");
    assert "+49" + "12345" == "+4912345";
  }

  /** A leading `+` country prefix survives normalisation. */
  lemma NormalizeRecipientPrefixExample()
    ensures NormalizeRecipient("+49 12345") == Ok("+4912345")
  {
    StripPrefix();
    assert "+4912345"[1..] == "4912345";
    NormalizeRecipientOk("+49 12345", "+4912345");
  }

  lemma StripSendExampleTail()
    ensures Strip("34-567") == "34567"
  {
    StripNoSeparators("567");
    assert "34-567" == "34" + "-" + "567";
    StripSplit("34", "-", "567");
    assert "34" + "567" == "34567";
  }

  lemma StripSendExample()
    ensures Strip("+12 34-567") == "+1234567"
  {
    StripSendExampleTail();
    assert "+12 34-567" == "+12" + " " + "34-567";
    StripSplit("+12", " ", "34-567");
    assert "+12" + "34567" == "+1234567";
  }

  /** The recipient sent in the client's request examples. */
  lemma NormalizeRecipientSendExample()
    ensures NormalizeRecipient("+12 34-567") == Ok("+1234567")
  {
    StripSendExample();
    assert "+1234567"[1..] == "1234567";
    NormalizeRecipientOk("+12 34-567", "+1234567");
  }

  /** A recipient with letters in it is refused. */
  lemma NormalizeRecipientLetterExample()
    ensures NormalizeRecipient("123456abc") == Err(InvalidFormat)
  {
    NormalizeRecipientRejectsLetters("123456abc", 6);
  }

  // ------------------------------------------------------------------- sender

  /**
   * Checks a sender against the route it is to be used with. The value is
   * kept as given: it is neither stripped nor shortened.
   */
  function ValidateSender(route: Route, from: string): (r: Result<string, Error>)
    ensures r.Ok? <==> AllowsSender(route) && |from| <= MaxSenderLength
    ensures r.Ok? ==> r.value == from
    ensures !AllowsSender(route) ==> r == Err(InvalidOption)
    ensures AllowsSender(route) && |from| > MaxSenderLength ==> r == Err(InvalidFormat)
  {
    if !AllowsSender(route) then Err(InvalidOption)
    else if |from| > MaxSenderLength then Err(InvalidFormat)
    else Ok(from)
  }

  /** The senders of the client's examples. */
  lemma ValidateSenderExamples()
    ensures ValidateSender(Gold, "123456789101") == Ok("123456789101")
    ensures ValidateSender(Direct, "123456") == Ok("123456")
    ensures ValidateSender(Basic, "123456") == Err(InvalidOption)
    ensures ValidateSender(Gold, "ab cd sdfsesj1234") == Err(InvalidFormat)
    ensures ValidateSender(Gold, "f$oo bar") == Ok("f$oo bar")
  {
  }

  // -------------------------------------------------------------------- flags

  /** A flag as the provider receives it. */
  type Bit = b: int | 0 <= b <= 1

  /** A boolean option as 1 or 0. */
  function FlagValue(on: bool): (b: Bit)
    ensures b == 1 <==> on
  {
    if on then 1 else 0
  }
}
