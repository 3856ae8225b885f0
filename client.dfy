/**
 * The SMSTradeRB object: its fields, the constructor that applies the
 * caller's options, the readers, and `send`, which applies overrides, sends
 * the request to the provider and wraps the reply.
 */
module Client {
  import opened Wrappers
  import opened Fields
  import opened Request
  import opened Reply
  import FormEncoding

  class SmsTrade {
    var key: Option<string>
    var to: Option<string>
    var from: Option<string>
    var message: Option<string>
    var route: Route
    var debug: Bit
    var concat: Bit
    var charset: string

    /** The fields as a value. */
    function Current(): Settings
      reads this
    {
      Settings(key, to, from, message, route, debug, concat, charset)
    }

    ghost predicate Valid()
      reads this
    {
      Invariant(Current())
    }

    /** An object with no options applied. */
    constructor ()
      ensures Valid() && Current() == Defaults
    {
      key, to, from, message := None, None, None, None;
      route, debug, concat := Basic, 0, 0;
      charset := DefaultCharset;
    }

    /**
     * Applies options field by field. Every check is made before anything is
     * stored, so a refused option leaves the object as it was.
     */
    method Configure(o: Options) returns (err: Option<Error>)
      requires Valid()
      modifies this
      ensures Valid()
      ensures Apply(old(Current()), o).Ok? ==> err == None && Current() == Apply(old(Current()), o).value
      ensures Apply(old(Current()), o).Err? ==> err == Some(Apply(old(Current()), o).error) && Current() == old(Current())
    {
      var before := Current();
      ApplyPreservesInvariant(before, o);
      var newRoute := RouteAfter(before, o);
      if newRoute.Err? {
        return Some(newRoute.error);
      }
      var newTo := RecipientAfter(before, o);
      if newTo.Err? {
        return Some(newTo.error);
      }
      var newFrom := SenderAfter(before, o, newRoute.value);
      if newFrom.Err? {
        return Some(newFrom.error);
      }
      route, to, from := newRoute.value, newTo.value, newFrom.value;
      debug := if o.debug.Some? then FlagValue(o.debug.value) else debug;
      concat := if o.concat.Some? then FlagValue(o.concat.value) else concat;
      message := if o.message.Some? then o.message else message;
      key := if o.key.Some? then o.key else key;
      assert Current() == Apply(before, o).value;
      err := None;
    }

    /** `SMSTradeRB.new(options)`: a new object, or the error of the first option refused. */
    static method Create(o: Options) returns (r: Result<SmsTrade, Error>)
      ensures r.Ok? ==> fresh(r.value) && r.value.Valid() && New(o) == Ok(r.value.Current())
      ensures r.Err? ==> New(o) == Err(r.error)
    {
      var sms := new SmsTrade();
      var err := sms.Configure(o);
      if err.Some? {
        return Err(err.value);
      }
      return Ok(sms);
    }

    /** The `message` reader: the stored text, form-encoded; decoding it gives the text back. */
    function Message(): (r: Option<string>)
      reads this
      ensures r.Some? <==> message.Some?
      ensures r.Some? ==> r.value == FormEncoding.Encode(message.value)
      ensures r.Some? ==> FormEncoding.Decode(r.value) == Some(message.value)
    {
      if message.Some? then
        FormEncoding.DecodeEncode(message.value);
        Some(FormEncoding.Encode(message.value))
      else None
    }

    /** The `from` reader: the stored sender, form-encoded; decoding it gives the sender back. */
    function From(): (r: Option<string>)
      reads this
      ensures r.Some? <==> from.Some?
      ensures r.Some? ==> r.value == FormEncoding.Encode(from.value)
      ensures r.Some? ==> FormEncoding.Decode(r.value) == Some(from.value)
    {
      if from.Some? then
        FormEncoding.DecodeEncode(from.value);
        Some(FormEncoding.Encode(from.value))
      else None
    }

    /**
     * `send(overrides)`: applies the overrides as Configure does; if they are
     * accepted, hands the outbound parameters to the provider once and turns
     * its reply into a response. The provider stands for the HTTP exchange:
     * its result is the reply body, or None when the exchange fails.
     */
    method Send(overrides: Options, provider: map<string, string> -> Option<string>) returns (r: Result<Response, Error>)
      requires Valid()
      modifies this
      ensures Valid()
      ensures Apply(old(Current()), overrides).Err? ==>
        r == Err(Apply(old(Current()), overrides).error) && Current() == old(Current())
      ensures Apply(old(Current()), overrides).Ok? ==>
        Current() == Apply(old(Current()), overrides).value && r == Respond(provider(OutboundParams(Current())))
    {
      var err := Configure(overrides);
      if err.Some? {
        return Err(err.value);
      }
      var reply := provider(OutboundParams(Current()));
      r := Respond(reply);
    }
  }
}
