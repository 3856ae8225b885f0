/**
 * The state of an SMSTradeRB request as values: the options a caller passes
 * to `SMSTradeRB.new` or `send`, the settings they produce, the rule by which
 * options are applied to settings, and the parameters sent to the provider.
 */
module Request {
  import opened Wrappers
  import opened Fields

  /** The recognised options; an absent option leaves its setting as it was. */
  datatype Options = Options(
    key: Option<string>,
    to: Option<string>,
    from: Option<string>,
    message: Option<string>,
    route: Option<string>,
    debug: Option<bool>,
    concat: Option<bool>)

  const NoOptions: Options := Options(None, None, None, None, None, None, None)

  /**
   * The fields of an SMSTradeRB object: `to` normalised, `from` and `message`
   * raw (the readers encode them), the flags as 0 or 1.
   */
  datatype Settings = Settings(
    key: Option<string>,
    to: Option<string>,
    from: Option<string>,
    message: Option<string>,
    route: Route,
    debug: Bit,
    concat: Bit,
    charset: string)

  /** The character set named in every request. */
  const DefaultCharset: string := "UTF-8"

  /** A fresh object: route basic, both flags off, the default character set. */
  const Defaults: Settings := Settings(None, None, None, None, Basic, 0, 0, DefaultCharset)

  /** What the field rules guarantee about every object that exists. */
  ghost predicate Invariant(st: Settings) {
    && (st.to.Some? ==> IsPhoneNumber(st.to.value))
    && (st.from.Some? ==> |st.from.value| <= MaxSenderLength)
    && st.charset != []
  }

  /**
   * Applies options to settings, checking route, then `to`, then `from`
   * (against the route in force after this call), then taking the flags,
   * message and key. The first failing field decides the error, and on an
   * error nothing is applied at all.
   */
  function Apply(st: Settings, o: Options): (r: Result<Settings, Error>)
    ensures r.Ok? ==> r.value.charset == st.charset
    ensures r.Ok? && o.key.None? ==> r.value.key == st.key
    ensures r.Ok? && o.to.None? ==> r.value.to == st.to
    ensures r.Ok? && o.from.None? ==> r.value.from == st.from
    ensures r.Ok? && o.message.None? ==> r.value.message == st.message
    ensures r.Ok? && o.route.None? ==> r.value.route == st.route
    ensures r.Ok? && o.debug.None? ==> r.value.debug == st.debug
    ensures r.Ok? && o.concat.None? ==> r.value.concat == st.concat
  {
    match RouteAfter(st, o)
    case Err(e) => Err(e)
    case Ok(route) =>
      match RecipientAfter(st, o)
      case Err(e) => Err(e)
      case Ok(to) =>
        match SenderAfter(st, o, route)
        case Err(e) => Err(e)
        case Ok(from) => Ok(Stored(st, o, route, to, from))
  }

  /** The route once the options are applied: the one named, or the current one. */
  function RouteAfter(st: Settings, o: Options): Result<Route, Error> {
    if o.route.Some? then ParseRoute(o.route.value) else Ok(st.route)
  }

  /** The recipient once the options are applied: the one given, normalised, or the current one. */
  function RecipientAfter(st: Settings, o: Options): Result<Option<string>, Error> {
    if o.to.None? then Ok(st.to)
    else match NormalizeRecipient(o.to.value)
      case Ok(to) => Ok(Some(to))
      case Err(e) => Err(e)
  }

  /** The sender once the options are applied, checked against the route then in force. */
  function SenderAfter(st: Settings, o: Options, route: Route): Result<Option<string>, Error> {
    if o.from.None? then Ok(st.from)
    else match ValidateSender(route, o.from.value)
      case Ok(from) => Ok(Some(from))
      case Err(e) => Err(e)
  }

  /** The settings once the checked fields and the unchecked options are stored. */
  function Stored(st: Settings, o: Options, route: Route, to: Option<string>, from: Option<string>): Settings {
    Settings(
      if o.key.Some? then o.key else st.key,
      to,
      from,
      if o.message.Some? then o.message else st.message,
      route,
      if o.debug.Some? then FlagValue(o.debug.value) else st.debug,
      if o.concat.Some? then FlagValue(o.concat.value) else st.concat,
      st.charset)
  }

  /** `SMSTradeRB.new(options)`: the options applied to a fresh object. */
  function New(o: Options): Result<Settings, Error> {
    Apply(Defaults, o)
  }

  /**
   * Applying options succeeds exactly when every option given passes its own
   * rule, and then each option given is stored in its normalised form.
   */
  lemma ApplySucceeds(st: Settings, o: Options)
    ensures Apply(st, o).Ok? <==>
      && (o.route.Some? ==> ParseRoute(o.route.value).Ok?)
      && (o.to.Some? ==> NormalizeRecipient(o.to.value).Ok?)
      && (o.from.Some? ==>
            AllowsSender(if o.route.Some? then ParseRoute(o.route.value).value else st.route)
            && |o.from.value| <= MaxSenderLength)
    ensures Apply(st, o).Ok? ==>
      && (o.key.Some? ==> Apply(st, o).value.key == o.key)
      && (o.message.Some? ==> Apply(st, o).value.message == o.message)
      && (o.route.Some? ==> RouteName(Apply(st, o).value.route) == o.route.value)
      && (o.to.Some? ==> Apply(st, o).value.to == Some(Strip(o.to.value)))
      && (o.from.Some? ==> Apply(st, o).value.from == o.from)
      && (o.debug.Some? ==> Apply(st, o).value.debug == FlagValue(o.debug.value))
      && (o.concat.Some? ==> Apply(st, o).value.concat == FlagValue(o.concat.value))
  {
    if o.route.Some? && ParseRoute(o.route.value).Ok? {
      ParseRouteExactly(o.route.value, ParseRoute(o.route.value).value);
    }
  }

  /** Which error a refused set of options reports, in the order the fields are checked. */
  lemma ApplyFails(st: Settings, o: Options)
    ensures o.route.Some? && ParseRoute(o.route.value).Err? ==> Apply(st, o) == Err(InvalidRoute)
    ensures RouteAfter(st, o).Ok? && o.to.Some? && NormalizeRecipient(o.to.value).Err? ==> Apply(st, o) == Err(InvalidFormat)
    ensures RouteAfter(st, o).Ok? && RecipientAfter(st, o).Ok? && o.from.Some? && !AllowsSender(RouteAfter(st, o).value)
      ==> Apply(st, o) == Err(InvalidOption)
    ensures RouteAfter(st, o).Ok? && RecipientAfter(st, o).Ok? && o.from.Some?
      && AllowsSender(RouteAfter(st, o).value) && |o.from.value| > MaxSenderLength
      ==> Apply(st, o) == Err(InvalidFormat)
  {
  }

  /** Applied options keep the invariant of the field rules. */
  lemma ApplyPreservesInvariant(st: Settings, o: Options)
    requires Invariant(st)
    ensures Apply(st, o).Ok? ==> Invariant(Apply(st, o).value)
  {
  }

  /** Applying the same options a second time changes nothing more. */
  lemma ApplyIdempotent(st: Settings, o: Options)
    requires Apply(st, o).Ok?
    ensures Apply(Apply(st, o).value, o) == Apply(st, o)
  {
    if o.to.Some? {
      StripIdempotent(o.to.value);
    }
  }

  /** Passing no options leaves the settings as they are. */
  lemma ApplyNoOptions(st: Settings)
    ensures Apply(st, NoOptions) == Ok(st)
  {
  }

  /** A fresh object has route basic, both flags 0 and a character set, and keeps the invariant. */
  lemma NewDefaults()
    ensures New(NoOptions) == Ok(Defaults)
    ensures Defaults.route == Basic && Defaults.debug == 0 && Defaults.concat == 0
    ensures Defaults.charset != [] && Invariant(Defaults)
  {
  }

  // ------------------------------------------------------------ outbound request

  function BitString(b: Bit): (s: string)
    ensures s == "1" <==> b == 1
    ensures b == 0 ==> s == "0"
  {
    if b == 1 then "1" else "0"
  }

  function WithOptional(m: map<string, string>, k: string, v: Option<string>): (r: map<string, string>)
    ensures v.Some? ==> r == m[k := v.value]
    ensures v.None? ==> r == m
  {
    if v.Some? then m[k := v.value] else m
  }

  /**
   * The parameters of the provider request, as the provider reads them
   * (decoded): route, debug, concat and charset always, key, to and message
   * when set, from only when set and the route lets the caller choose it.
   */
  function OutboundParams(st: Settings): (p: map<string, string>)
    ensures p.Keys <= {"key", "to", "from", "message", "route", "debug", "concat", "charset"}
    ensures "route" in p && "debug" in p && "concat" in p && "charset" in p
    ensures "key" in p <==> st.key.Some?
    ensures "to" in p <==> st.to.Some?
    ensures "message" in p <==> st.message.Some?
    ensures "from" in p <==> st.from.Some? && AllowsSender(st.route)
  {
    var base := map[
      "route" := RouteName(st.route),
      "debug" := BitString(st.debug),
      "concat" := BitString(st.concat),
      "charset" := st.charset];
    var p := WithOptional(WithOptional(WithOptional(base, "key", st.key), "to", st.to), "message", st.message);
    if AllowsSender(st.route) then WithOptional(p, "from", st.from) else p
  }

  /** The request always names the route and the character set in force. */
  lemma OutboundParamsFixed(st: Settings)
    ensures OutboundParams(st)["route"] == RouteName(st.route)
    ensures OutboundParams(st)["charset"] == st.charset
  {
  }

  /** The request always carries both flags, each "1" when it is on and "0" when it is off. */
  lemma OutboundParamsFlags(st: Settings)
    ensures OutboundParams(st)["debug"] == (if st.debug == 1 then "1" else "0")
    ensures OutboundParams(st)["concat"] == (if st.concat == 1 then "1" else "0")
  {
  }

  /** The parameters sent when set carry the stored value of their field. */
  lemma OutboundParamsOptional(st: Settings)
    ensures st.key.Some? ==> OutboundParams(st)["key"] == st.key.value
    ensures st.to.Some? ==> OutboundParams(st)["to"] == st.to.value
    ensures st.message.Some? ==> OutboundParams(st)["message"] == st.message.value
    ensures st.from.Some? && AllowsSender(st.route) ==> OutboundParams(st)["from"] == st.from.value
  {
  }
}
