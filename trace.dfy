/** Call sequences as the per-type serialization code issues them: token
    operations, and nested scopes that push a frame before their body and pop the
    undo frame after it. Scope balance is proved here for every depth. */
module Trace {
  import opened Types
  import opened Scope
  import opened Model

  /** One call of the writer's caller; `Scoped(ctx, body)` is `push(ctx)`, then the
      body, then `pop` of the frame push returned. */
  datatype Op =
    | Start(name: string, ns: string, scalar: bool)
    | Attr(name: string, ns: string, value: string)
    | Text(value: string)
    | EndStartTag
    | Close(prefix: Option<string>, name: string)
    | Scoped(ctx: Context, body: seq<Op>)

  /** How a run ends: with a writer, with the first error (the caller's `?` stops
      there), or in the `unreachable!()` of `pop`. */
  datatype Outcome = Done(w: Writer) | Failed(error: Error) | Panicked

  /** One token operation; `Scoped` is handled by `Run`. */
  function Token(w: Writer, op: Op): (r: Result<Writer>)
    requires !op.Scoped?
    ensures r.Ok? ==> SameScope(w, r.value) && w.output <= r.value.output
  {
    match op
    case Start(name, ns, scalar) =>
      (match WriteStart(w, name, ns, scalar) case Ok((w', _)) => Ok(w') case Err(e) => Err(e))
    case Attr(name, ns, value) => WriteAttr(w, name, ns, value)
    case Text(value) => WriteStr(w, value)
    case EndStartTag => Model.EndStart(w)
    case Close(prefix, name) => WriteClose(w, prefix, name)
  }

  function Run(w: Writer, ops: seq<Op>): Outcome
    decreases ops
  {
    if ops == [] then Done(w)
    else match ops[0]
      case Scoped(ctx, body) =>
        (match Push(w, ctx)
         case Err(e) => Failed(e)
         case Ok((inner, undo)) =>
           match Run(inner, body)
           case Done(after) =>
             if PopDefined(after.prefixes, undo.prefixes) then Run(Pop(after, undo), ops[1..])
             else Panicked
           case other => other)
      case _ =>
        match Token(w, ops[0])
        case Err(e) => Failed(e)
        case Ok(w') => Run(w', ops[1..])
  }

  /** Every frame pushed anywhere in the calls binds no prefix to the empty URI. */
  predicate WellScoped(ops: seq<Op>)
    decreases ops
  {
    forall k :: 0 <= k < |ops| ==> (ops[k].Scoped? ==> NoEmptyUri(ops[k].ctx.prefixes) && WellScoped(ops[k].body))
  }

  /** `pop`'s `unreachable!()` is never reached by any nesting of calls, however
      its frames bind; and a run that completes keeps every URI that was bound
      when it started. */
  lemma {:induction false} RunNeverPanics(w: Writer, ops: seq<Op>)
    ensures Run(w, ops) != Panicked
    ensures Run(w, ops).Done? ==> w.prefixes.Keys <= Run(w, ops).w.prefixes.Keys
    decreases ops
  {
    if ops != [] {
      match ops[0]
      case Scoped(ctx, body) =>
        if w.state == Attribute {
          var (inner, undo) := Push(w, ctx).value;
          assert ops[0] == Scoped(ctx, body);
          assert inner.prefixes == Bind(w.prefixes, Installed(w.prefixes, ctx.prefixes));
          RunNeverPanics(inner, body);
          if Run(inner, body).Done? {
            var after := Run(inner, body).w;
            PopAfterPushDefined(w.prefixes, ctx.prefixes, after.prefixes);
            RunNeverPanics(Pop(after, undo), ops[1..]);
          }
        }
      case _ =>
        if Token(w, ops[0]).Ok? {
          RunNeverPanics(Token(w, ops[0]).value, ops[1..]);
        }
    }
  }

  /** Scope balance at every depth: a run of calls whose frames bind no prefix to
      the empty URI never reaches the `unreachable!()` of `pop`, and when it
      completes the namespace table and the default namespace are exactly what they
      were before it. */
  lemma {:induction false} RunKeepsScope(w: Writer, ops: seq<Op>)
    requires WellScoped(ops)
    ensures Run(w, ops) != Panicked
    ensures Run(w, ops).Done? ==> SameScope(w, Run(w, ops).w)
    decreases ops
  {
    if ops != [] {
      assert WellScoped(ops[1..]) by {
        forall k | 0 <= k < |ops[1..]| ensures ops[1..][k] == ops[k + 1] { }
      }
      match ops[0]
      case Scoped(ctx, body) =>
        if w.state == Attribute {
          var (inner, undo) := Push(w, ctx).value;
          assert ops[0] == Scoped(ctx, body);
          RunKeepsScope(inner, body);
          if Run(inner, body).Done? {
            var after := Run(inner, body).w;
            PushPopRestoresScope(w, ctx);
            assert Pop(after, undo) == Pop(inner, undo).(output := after.output, state := after.state);
            RunKeepsScope(Pop(after, undo), ops[1..]);
          }
        }
      case _ =>
        if Token(w, ops[0]).Ok? {
          RunKeepsScope(Token(w, ops[0]).value, ops[1..]);
        }
    }
  }
}
