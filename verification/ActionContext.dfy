/** The action context an async call runs under: how each operation derives it from the
    enclosing one, and how it travels through a job queue. */
module ActionContext {
  import opened Options
  import opened ActionId

  datatype Context = Context(
    actionId: string,
    rootActionId: string,
    causedByActionId: Option<string>,
    interactionId: Option<string>,
    agentRunId: Option<string>,
    actorType: string,
    actorId: Option<string>)

  /** An optional property of a JavaScript object. */
  datatype Field = Undefined | Null | Text(text: string)

  predicate Truthy(f: Field) { f.Text? && f.text != "" }

  predicate Set(o: Option<string>) { o.Some? && o.value != "" }

  function Nullable(f: Field): Option<string> { if f.Text? then Some(f.text) else None }

  // ---------------------------------------------------------------- deriving contexts

  /** The options of a run: `agentId` is required, the actor's type and id may be given. */
  datatype RunOptions = RunOptions(agentId: string, actorType: Option<string>, actorId: Option<string>)

  /** `startAgentRun`: a root of its own, caused by the enclosing action. */
  function RunContext(id: string, parent: Option<Context>, opts: RunOptions): Context {
    Context(id, id,
            if parent.Some? then Some(parent.value.actionId) else None,
            if parent.Some? then parent.value.interactionId else None,
            Some(id),
            if opts.actorType.Some? then opts.actorType.value else "agent",
            if opts.actorId.Some? then opts.actorId else Some(opts.agentId))
  }

  /** `step`, `llm`, `tool`, `recordRetrieval`, `recordEvaluation` and `recordArtifact`. */
  function StepContext(id: string, parent: Option<Context>): Context {
    match parent
    case None => Context(id, id, None, None, None, "agent", None)
    case Some(p) => Context(id, p.rootActionId, Some(p.actionId), p.interactionId, p.agentRunId, p.actorType, p.actorId)
  }

  /** The validated headers of an inbound request. */
  datatype Headers = Headers(root: Option<string>, action: Option<string>, interaction: Option<string>)

  function First(a: Option<string>, b: Option<string>): Option<string> { if a.Some? then a else b }

  /** The context stamped from inbound headers, if there are any: `stampActionFromRequest`. */
  function InboundContext(h: Headers): Option<Context> {
    var root, action := First(h.root, h.action), First(h.action, h.root);
    if root.Some? && action.Some? then
      Some(Context(action.value, root.value, None, h.interaction, None, "unknown", None))
    else if h.interaction.Some? then
      Some(Context(h.interaction.value, h.interaction.value, None, h.interaction, None, "unknown", None))
    else None
  }

  datatype ActionOptions = ActionOptions(
    actionId: Field, rootActionId: Field, causedByActionId: Field, interactionId: Field,
    agentRunId: Field, actorType: Field, actorId: Field)

  /** A context, or the name of the field whose id `requireActionId` rejects. */
  datatype Result = Ok(context: Context) | Rejected(field: string)

  predicate Admissible(f: Field) { Truthy(f) ==> ValidActionId(f.text) }

  /** `withAction`; `minted` is the id it would create. */
  function WithAction(opts: ActionOptions, parent: Option<Context>, minted: string): Result {
    if !Admissible(opts.actionId) then Rejected("actionId")
    else if !Admissible(opts.rootActionId) then Rejected("rootActionId")
    else if !Admissible(opts.causedByActionId) then Rejected("causedByActionId")
    else if !Admissible(opts.agentRunId) then Rejected("agentRunId")
    else
      var actionId := if Truthy(opts.actionId) then opts.actionId.text else minted;
      Ok(Context(
           actionId,
           if Truthy(opts.rootActionId) then opts.rootActionId.text
           else if parent.Some? then parent.value.rootActionId else actionId,
           if opts.causedByActionId.Undefined? then (if parent.Some? then Some(parent.value.actionId) else None)
           else if Truthy(opts.causedByActionId) then Some(opts.causedByActionId.text) else None,
           if opts.interactionId.Undefined? then (if parent.Some? then parent.value.interactionId else None)
           else Nullable(opts.interactionId),
           if opts.agentRunId.Undefined? then (if parent.Some? then parent.value.agentRunId else None)
           else if Truthy(opts.agentRunId) then Some(opts.agentRunId.text) else None,
           if opts.actorType.Text? then opts.actorType.text
           else if parent.Some? then parent.value.actorType else "agent",
           if opts.actorId.Undefined? then (if parent.Some? then parent.value.actorId else None)
           else Nullable(opts.actorId)))
  }

  // ---------------------------------------------------------------- the hand-off

  datatype Serialized = Serialized(
    rootActionId: string, actionId: string, causedByActionId: Field, interactionId: Field,
    agentRunId: Field, actorType: Field, actorId: Field)

  function Kept(o: Option<string>): Field { if Set(o) then Text(o.value) else Undefined }

  function Serialize(c: Context): Serialized {
    Serialized(c.rootActionId, c.actionId, Kept(c.causedByActionId), Kept(c.interactionId),
               Kept(c.agentRunId), if c.actorType != "" then Text(c.actorType) else Undefined, Kept(c.actorId))
  }

  function OrNull(f: Field): Field { if f.Undefined? then Null else f }

  function Restore(m: Serialized): ActionOptions {
    ActionOptions(Text(m.actionId), Text(m.rootActionId), OrNull(m.causedByActionId), OrNull(m.interactionId),
                  OrNull(m.agentRunId), m.actorType, OrNull(m.actorId))
  }

  /** `withSerializedActionContext` around the producer's `serializeActionContext`. */
  function HandOff(c: Context, consumer: Option<Context>, minted: string): Result {
    WithAction(Restore(Serialize(c)), consumer, minted)
  }

  predicate OptionalId(o: Option<string>) { o.Some? ==> ValidActionId(o.value) }

  /** Ids are valid and no string is empty. */
  predicate Canonical(c: Context) {
    && ValidActionId(c.actionId) && ValidActionId(c.rootActionId)
    && OptionalId(c.causedByActionId) && OptionalId(c.agentRunId)
    && c.interactionId != Some("") && c.actorId != Some("") && c.actorType != ""
  }

  /** A context survives the queue unchanged, whatever context the consumer already has,
      if and only if its ids are valid and it holds no empty string. */
  lemma {:induction false} HandOffExactly(c: Context)
    ensures (forall consumer, minted :: HandOff(c, consumer, minted) == Ok(c)) <==> Canonical(c)
  {
    if Canonical(c) {
      forall consumer, minted
        ensures HandOff(c, consumer, minted) == Ok(c)
      {
      }
    } else {
      assert HandOff(c, None, "") != Ok(c) || HandOff(c, None, "x") != Ok(c);
    }
  }

  // ---------------------------------------------------------------- every context the SDK builds

  /** Every id the caller gives `withAction` has the required format. */
  predicate IdsWellFormed(opts: ActionOptions) {
    && Admissible(opts.actionId) && Admissible(opts.rootActionId)
    && Admissible(opts.causedByActionId) && Admissible(opts.agentRunId)
  }

  predicate NoEmptyText(opts: ActionOptions) {
    opts.interactionId != Text("") && opts.actorType != Text("") && opts.actorId != Text("")
  }

  /** `withAction` throws exactly if an id given to it is malformed.  Otherwise its context, whatever is
      given and whatever is inherited or created, can be handed on exactly if no empty text was given. */
  lemma {:induction false} WithActionExactly(opts: ActionOptions, parent: Option<Context>, minted: string)
    requires ValidActionId(minted) && (parent.Some? ==> Canonical(parent.value))
    ensures var r := WithAction(opts, parent, minted);
            && (r.Rejected? <==> !IdsWellFormed(opts))
            && (r.Ok? ==> (Canonical(r.context) <==> NoEmptyText(opts)))
  {
    hide ValidActionId;
    NoIdIsEmpty();
  }

  lemma NoIdIsEmpty()
    ensures !ValidActionId("")
  {
  }

  const NO_OPTIONS := ActionOptions(Undefined, Undefined, Undefined, Undefined, Undefined, Undefined, Undefined)

  /** What `withAction` makes of any options it accepts.  Given nothing, the context is that of a step: the
      enclosing action is the cause, and root, interaction, run and actor are its own.  Whatever is given
      replaces that one field and no other; `null` clears a field that can be empty. */
  lemma {:induction false} WithActionFields(opts: ActionOptions, parent: Option<Context>, minted: string)
    requires IdsWellFormed(opts)
    ensures WithAction(NO_OPTIONS, parent, minted) == Ok(StepContext(minted, parent))
    ensures var id := if Truthy(opts.actionId) then opts.actionId.text else minted;
            var step := StepContext(id, parent);
            var c := WithAction(opts, parent, minted).context;
            && c.actionId == id
            && c.rootActionId == (if Truthy(opts.rootActionId) then opts.rootActionId.text else step.rootActionId)
            && c.causedByActionId == Replaced(opts.causedByActionId, step.causedByActionId)
            && c.agentRunId == Replaced(opts.agentRunId, step.agentRunId)
            && c.interactionId == (if opts.interactionId.Undefined? then step.interactionId else Nullable(opts.interactionId))
            && c.actorType == (if opts.actorType.Text? then opts.actorType.text else step.actorType)
            && c.actorId == (if opts.actorId.Undefined? then step.actorId else Nullable(opts.actorId))
  {
    hide ValidActionId;
  }

  /** An optional id: given, cleared, or as it was. */
  function Replaced(f: Field, was: Option<string>): Option<string> {
    if f.Undefined? then was else if Truthy(f) then Some(f.text) else None
  }

  /** How a context came about. */
  datatype Origin =
    | Inbound(headers: Headers)
    | Run(id: string, runIn: Option<Origin>, opts: RunOptions)
    | Step(id: string, stepIn: Option<Origin>)
    | Acted(given: ActionOptions, actedIn: Option<Origin>, minted: string)
    | Delivered(producer: Origin, consumer: Option<Origin>, minted: string)

  /** No context comes about inside a body that `withAction` refused to run. */
  function ContextOf(o: Origin): Option<Context> {
    match o
    case Inbound(h) => InboundContext(h)
    case Run(id, p, opts) =>
      if p.None? then Some(RunContext(id, None, opts))
      else
        var c := ContextOf(p.value);
        if c.None? then None else Some(RunContext(id, c, opts))
    case Step(id, p) =>
      if p.None? then Some(StepContext(id, None))
      else
        var c := ContextOf(p.value);
        if c.None? then None else Some(StepContext(id, c))
    case Acted(given, p, minted) =>
      if p.None? then Accepted(WithAction(given, None, minted))
      else
        var c := ContextOf(p.value);
        if c.None? then None else Accepted(WithAction(given, c, minted))
    case Delivered(from, to, minted) =>
      var sent := ContextOf(from);
      if sent.None? then None
      else if to.None? then Accepted(HandOff(sent.value, None, minted))
      else
        var c := ContextOf(to.value);
        if c.None? then None else Accepted(HandOff(sent.value, c, minted))
  }

  function Accepted(r: Result): Option<Context> { if r.Ok? then Some(r.context) else None }

  /** Created ids are valid, header values were validated, and callers pass no empty string as text.
      Ids passed to `withAction` may be anything. */
  predicate Proper(o: Origin) {
    match o
    case Inbound(h) =>
      && OptionalId(h.root) && OptionalId(h.action) && OptionalId(h.interaction)
      && (h.root.Some? || h.action.Some? || h.interaction.Some?)
    case Run(id, p, opts) =>
      && ValidActionId(id) && (p.Some? ==> Proper(p.value))
      && opts.agentId != "" && opts.actorType != Some("") && opts.actorId != Some("")
    case Step(id, p) => ValidActionId(id) && (p.Some? ==> Proper(p.value))
    case Acted(given, p, minted) => ValidActionId(minted) && NoEmptyText(given) && (p.Some? ==> Proper(p.value))
    case Delivered(from, to, minted) => Proper(from) && (to.Some? ==> Proper(to.value)) && ValidActionId(minted)
  }

  /** Some call of `withAction` on the way was given a malformed id. */
  predicate GivenMalformedId(o: Origin) {
    match o
    case Inbound(_) => false
    case Run(_, p, _) => p.Some? && GivenMalformedId(p.value)
    case Step(_, p) => p.Some? && GivenMalformedId(p.value)
    case Acted(given, p, _) => !IdsWellFormed(given) || (p.Some? && GivenMalformedId(p.value))
    case Delivered(from, to, _) => GivenMalformedId(from) || (to.Some? && GivenMalformedId(to.value))
  }

  /** However contexts are nested, acted under and handed on, `requireActionId` throws exactly where a
      caller gave a malformed id, never on what the SDK built or delivered.  Every context that comes
      about can be handed on, and a delivered one is the one that was sent. */
  lemma {:induction false} BuiltContextsAreCanonical(o: Origin)
    requires Proper(o)
    ensures ContextOf(o).None? <==> GivenMalformedId(o)
    ensures ContextOf(o).Some? ==> Canonical(ContextOf(o).value)
    ensures o.Delivered? && ContextOf(o).Some? ==> ContextOf(o) == ContextOf(o.producer)
    decreases o
  {
    hide ValidActionId, WithAction, HandOff;
    NoIdIsEmpty();
    match o
    case Inbound(_) =>
    case Run(_, p, _) => if p.Some? { BuiltContextsAreCanonical(p.value); }
    case Step(_, p) => if p.Some? { BuiltContextsAreCanonical(p.value); }
    case Acted(given, p, minted) =>
      if p.Some? { BuiltContextsAreCanonical(p.value); }
      var parent := if p.Some? then ContextOf(p.value) else None;
      WithActionExactly(given, parent, minted);
    case Delivered(from, to, minted) =>
      BuiltContextsAreCanonical(from);
      if to.Some? { BuiltContextsAreCanonical(to.value); }
      if ContextOf(from).Some? { HandOffExactly(ContextOf(from).value); }
  }
}
