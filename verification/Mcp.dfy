/** Context propagation through the `_meta` of an MCP request. */
module Mcp {
  import opened Options
  import opened Text
  import opened ActionContext
  import ActionId
  import B = McpBaggage
  import W = Traceparent

  /** A property of `_meta`: missing, a string, or something else. */
  datatype Property = Missing | Str(text: string) | NotText

  /** The `obs` object of `_meta`. */
  datatype Obs = NoObs | Obs(rootActionId: Property, actionId: Property)

  /** The properties of `_meta` that the propagation reads or writes. */
  datatype Meta = Meta(
    traceparent: Property, tracestate: Property, baggage: Property,
    rootActionId: Property, actionId: Property, obs: Obs)

  const NO_META := Meta(Missing, Missing, Missing, Missing, Missing, NoObs)

  datatype SpanIds = SpanIds(traceId: string, spanId: string)

  /** What the client injects besides its own context. */
  datatype Extras = Extras(tracestate: Option<string>, baggage: Option<string>)

  // ---------------------------------------------------------------- client

  function Given(p: Property): string { if p.Str? then p.text else "" }

  function WithTrace(m: Meta, span: Option<SpanIds>): Meta {
    if span.None? then m
    else m.(traceparent := Str(W.Print(span.value.traceId, span.value.spanId)))
  }

  function WithAction(m: Meta, action: Option<Context>): Meta {
    match action
    case None => m
    case Some(a) =>
      m.(rootActionId := Str(a.rootActionId), actionId := Str(a.actionId),
         obs := Obs(Str(a.rootActionId), Str(a.actionId)))
  }

  function WithBaggage(m: Meta, action: Option<Context>, extras: Extras): Meta {
    var t := if Set(extras.tracestate) then m.(tracestate := Str(extras.tracestate.value)) else m;
    if Set(extras.baggage) then t.(baggage := Str(extras.baggage.value))
    else if action.Some? && Set(action.value.interactionId) then
      t.(baggage := Str(B.Append(Given(t.baggage), action.value.interactionId.value)))
    else t
  }

  function Injected(m: Meta, span: Option<SpanIds>, action: Option<Context>, extras: Extras): Meta {
    WithBaggage(WithAction(WithTrace(m, span), action), action, extras)
  }

  /** The `params` of a request, into whose `_meta` the client writes. */
  class Params {
    var meta: Option<Meta>

    constructor (meta: Option<Meta>)
      ensures this.meta == meta
    {
      this.meta := meta;
    }

    /** `injectMcpContext` */
    method Inject(span: Option<SpanIds>, action: Option<Context>, extras: Extras)
      modifies this
      ensures meta == Some(Injected(if old(meta).Some? then old(meta).value else NO_META, span, action, extras))
    {
      if meta.None? { meta := Some(NO_META); }
      if span.Some? {
        meta := Some(meta.value.(traceparent := Str(W.Print(span.value.traceId, span.value.spanId))));
      }
      if action.Some? {
        meta := Some(meta.value.(rootActionId := Str(action.value.rootActionId)));
        meta := Some(meta.value.(actionId := Str(action.value.actionId)));
        meta := Some(meta.value.(obs := Obs(Str(action.value.rootActionId), Str(action.value.actionId))));
      }
      if Set(extras.tracestate) {
        meta := Some(meta.value.(tracestate := Str(extras.tracestate.value)));
      }
      if Set(extras.baggage) {
        meta := Some(meta.value.(baggage := Str(extras.baggage.value)));
      } else if action.Some? && Set(action.value.interactionId) {
        meta := Some(meta.value.(baggage :=
          Str(B.Append(Given(meta.value.baggage), action.value.interactionId.value))));
      }
    }
  }

  // ---------------------------------------------------------------- server

  datatype McpContext = McpContext(
    trace: Option<W.TraceContext>, action: Option<ActionOptions>,
    tracestate: Option<string>, baggage: Option<string>)

  /** Nothing usable, a context, or the exception of a malformed baggage key or value. */
  datatype Extraction = Nothing | Extracted(context: McpContext) | Threw

  function AsOption(p: Property): Option<string> { if p.Str? then Some(p.text) else None }

  /** `parseActionHeader` */
  function ParseActionHeader(o: Option<string>): Option<string> {
    if o.Some? && ActionId.ValidActionId(Trim(o.value)) then Some(Trim(o.value)) else None
  }

  /** The flat property if it is a string, else the one inside `obs`. */
  function Preferred(flat: Property, nested: Property): Option<string> {
    if flat.Str? then Some(flat.text) else AsOption(nested)
  }

  function TraceIn(m: Meta): Option<W.TraceContext> {
    if m.traceparent.Str? then W.Parse(m.traceparent.text) else None
  }

  function RootIn(m: Meta): Option<string> {
    ParseActionHeader(Preferred(m.rootActionId, if m.obs.Obs? then m.obs.rootActionId else Missing))
  }

  function IdIn(m: Meta): Option<string> {
    ParseActionHeader(Preferred(m.actionId, if m.obs.Obs? then m.obs.actionId else Missing))
  }

  function Extract(decode: B.Decoder, m: Meta): Extraction {
    var trace, root, id := TraceIn(m), RootIn(m), IdIn(m);
    var interaction := B.Read(decode, Given(m.baggage));
    if interaction.Threw? then Threw
    else
      var interactionId := if interaction.Value? && interaction.id.Some? then Text(interaction.id.value) else Null;
      var action :=
        if root.Some? && id.Some? then
          Some(ActionOptions(Text(id.value), Text(root.value), Text(id.value), interactionId,
                             Text(root.value), Text("agent"), Null))
        else None;
      var c := McpContext(trace, action, AsOption(m.tracestate), AsOption(m.baggage));
      if c.trace.None? && c.action.None? && !Set(c.tracestate) && !Set(c.baggage) then Nothing else Extracted(c)
  }

  // ---------------------------------------------------------------- there and back

  lemma HeaderRoundTrip(id: string)
    requires ActionId.ValidActionId(id)
    ensures ParseActionHeader(Some(id)) == Some(id)
  {
    TrimNothing(id);
  }

  /** The baggage that goes out: the caller's own, else what was there with the interaction appended. */
  function Outgoing(m: Meta, a: Context, extras: Extras): Property {
    if Set(extras.baggage) then Str(extras.baggage.value)
    else if Set(a.interactionId) then Str(B.Append(Given(m.baggage), a.interactionId.value))
    else m.baggage
  }

  /** What the server is to find out about the client. */
  function Expected(span: SpanIds, a: Context, m: Meta, extras: Extras): McpContext {
    McpContext(Some(W.TraceContext(span.traceId, span.spanId)),
               Some(ActionOptions(Text(a.actionId), Text(a.rootActionId), Text(a.actionId),
                                  if a.interactionId.Some? then Text(a.interactionId.value) else Null,
                                  Text(a.rootActionId), Text("agent"), Null)),
               if Set(extras.tracestate) then extras.tracestate else AsOption(m.tracestate),
               AsOption(Outgoing(m, a, extras)))
  }

  /** The baggage speaks of interaction `o`, or of none. */
  predicate Tells(decode: B.Decoder, baggage: string, o: Option<string>) {
    var found := B.Read(decode, baggage);
    if o.Some? then found == B.Value(o) else found.Absent? || found == B.Value(None)
  }

  /** The caller's own baggage tells the interaction; or the interaction can be appended to what was
      there, which is silent or tells the same; or there is none to tell, and none is told. */
  predicate Compatible(decode: B.Decoder, m: Meta, a: Context, extras: Extras) {
    if Set(extras.baggage) then Tells(decode, extras.baggage.value, a.interactionId)
    else if a.interactionId.None? then Tells(decode, Given(m.baggage), None)
    else
      || (B.Read(decode, Given(m.baggage)).Absent? && !B.HasRawKey(B.EntriesOf(Given(m.baggage))))
      || Tells(decode, Given(m.baggage), a.interactionId)
  }

  /** For valid ids, whatever `_meta` held before and whatever else the caller sends along, extraction
      throws exactly if the outgoing baggage cannot be decoded, and otherwise recovers trace, span,
      root action and action.  It recovers the interaction too, or that there is none, exactly if the
      baggage is compatible; the other baggage entries keep their order. */
  lemma {:induction false} RoundTripExactly(decode: B.Decoder, m: Meta, span: SpanIds, a: Context, extras: Extras)
    requires B.DecodesPlainText(decode)
    requires W.ValidTraceId(span.traceId) && W.ValidSpanId(span.spanId)
    requires ActionId.ValidActionId(a.actionId) && ActionId.ValidActionId(a.rootActionId)
    requires a.interactionId.Some? ==> ActionId.ValidInteractionId(a.interactionId.value)
    ensures var e, x := Extract(decode, Injected(m, Some(span), Some(a), extras)), Expected(span, a, m, extras);
            && (e.Threw? <==> B.Read(decode, Given(Outgoing(m, a, extras))).Threw?)
            && (!e.Threw? ==>
                  && e.Extracted? && e.context.trace == x.trace
                  && e.context.tracestate == x.tracestate && e.context.baggage == x.baggage
                  && e.context.action.Some?
                  && e.context.action.value == x.action.value.(interactionId := e.context.action.value.interactionId))
            && (e == Extracted(x) <==> Compatible(decode, m, a, extras))
    ensures a.interactionId.Some? ==>
              var entries := B.EntriesOf(Given(m.baggage));
              B.EntriesOf(B.Append(Given(m.baggage), a.interactionId.value))
              == entries + (if B.HasRawKey(entries) then [] else [B.Pair(a.interactionId.value)])
  {
    hide B.Read, B.Append, B.EntriesOf, B.HasRawKey, B.DecodesPlainText, W.Parse, W.Print, Trim,
      ActionId.ValidActionId, W.ValidTraceId, W.ValidSpanId, ParseActionHeader;
    W.RoundTripExactly(span.traceId, span.spanId);
    HeaderRoundTrip(a.actionId);
    HeaderRoundTrip(a.rootActionId);
    if a.interactionId.Some? {
      NotEmpty(a.interactionId.value);
      B.AppendExactly(decode, Given(m.baggage), a.interactionId.value);
    }
  }

  /** With a span and no action, or an action and no span, or neither: what is active replaces what was
      there, and what is not leaves it. */
  lemma {:induction false} InjectedParts(m: Meta, span: Option<SpanIds>, action: Option<Context>, extras: Extras)
    requires span.Some? ==> W.ValidTraceId(span.value.traceId) && W.ValidSpanId(span.value.spanId)
    requires action.Some? ==>
               ActionId.ValidActionId(action.value.actionId) && ActionId.ValidActionId(action.value.rootActionId)
    ensures var n := Injected(m, span, action, extras);
            && TraceIn(n) == (if span.Some? then Some(W.TraceContext(span.value.traceId, span.value.spanId)) else TraceIn(m))
            && RootIn(n) == (if action.Some? then Some(action.value.rootActionId) else RootIn(m))
            && IdIn(n) == (if action.Some? then Some(action.value.actionId) else IdIn(m))
            && (span.Some? ==> n.traceparent == Str("00-" + span.value.traceId + "-" + span.value.spanId + "-01"))
            && (action.Some? ==> n.obs == Obs(Str(action.value.rootActionId), Str(action.value.actionId)))
            && n.tracestate == (if Set(extras.tracestate) then Str(extras.tracestate.value) else m.tracestate)
            && (action.None? ==> n.baggage == if Set(extras.baggage) then Str(extras.baggage.value) else m.baggage)
  {
    hide W.Parse, ParseActionHeader, ActionId.ValidActionId, W.ValidTraceId, W.ValidSpanId, B.Append;
    if span.Some? { W.RoundTripExactly(span.value.traceId, span.value.spanId); }
    if action.Some? {
      HeaderRoundTrip(action.value.actionId);
      HeaderRoundTrip(action.value.rootActionId);
    }
  }

  /** What a server makes of anyone's `_meta`: it throws exactly on baggage that cannot be decoded, finds an
      action exactly if there is a valid root and a valid id, and finds nothing exactly if there is
      neither trace nor action and the two texts are missing or empty. */
  lemma {:induction false} ExtractsExactly(decode: B.Decoder, m: Meta)
    ensures var e := Extract(decode, m);
            && (e.Threw? <==> B.Read(decode, Given(m.baggage)).Threw?)
            && (e.Nothing? <==>
                  && !B.Read(decode, Given(m.baggage)).Threw? && TraceIn(m).None? && (RootIn(m).None? || IdIn(m).None?)
                  && Given(m.tracestate) == "" && Given(m.baggage) == "")
            && (e.Extracted? ==>
                  && e.context.trace == TraceIn(m)
                  && (e.context.action.Some? <==> RootIn(m).Some? && IdIn(m).Some?)
                  && (e.context.action.Some? ==>
                        && Some(e.context.action.value.rootActionId.text) == RootIn(m)
                        && Some(e.context.action.value.actionId.text) == IdIn(m)))
  {
    hide B.Read, W.Parse, ParseActionHeader;
  }

  /** The properties inside `obs` are read only where the flat ones are not texts; a flat text that is not an
      id hides them.  Space around an id does not matter. */
  lemma {:induction false} NestedIsFallback(m: Meta, before: string, id: string, after: string, bad: string, other: Property)
    requires ActionId.ValidActionId(id) && AllSpace(before) && AllSpace(after) && !ActionId.ValidActionId(Trim(bad))
    requires !other.Str?
    ensures RootIn(m.(rootActionId := Str(before + id + after))) == Some(id)
    ensures IdIn(m.(actionId := Str(before + id + after))) == Some(id)
    ensures RootIn(m.(rootActionId := Str(bad))) == None && IdIn(m.(actionId := Str(bad))) == None
    ensures RootIn(m.(rootActionId := other, obs := Obs(Str(before + id + after), m.actionId))) == Some(id)
    ensures IdIn(m.(actionId := other, obs := Obs(m.rootActionId, Str(before + id + after)))) == Some(id)
    ensures RootIn(m.(rootActionId := other, obs := NoObs)) == None && IdIn(m.(actionId := other, obs := NoObs)) == None
  {
    hide Trim, ActionId.ValidActionId, IsSpace;
    PlainEnds(id);
    TrimPad(before, id, after);
  }

  lemma PlainEnds(id: string)
    requires ActionId.ValidActionId(id)
    ensures id != "" && !IsSpace(id[0]) && !IsSpace(id[|id| - 1])
  {
  }

  lemma NotEmpty(id: string)
    requires ActionId.ValidInteractionId(id)
    ensures id != ""
  {
  }

  /** The context a server derives from an extraction names the client's action as its own id and as
      its cause, under the client's root. */
  lemma {:induction false} ExtractedContextIsAccepted(decode: B.Decoder, m: Meta, consumer: Option<Context>, minted: string)
    requires var e := Extract(decode, m); e.Extracted? && e.context.action.Some?
    ensures var r := ActionContext.WithAction(Extract(decode, m).context.action.value, consumer, minted);
            && r.Ok?
            && ActionId.ValidActionId(r.context.actionId) && ActionId.ValidActionId(r.context.rootActionId)
            && r.context.causedByActionId == Some(r.context.actionId)
  {
    hide B.Read, W.Parse, Trim;
  }
}
