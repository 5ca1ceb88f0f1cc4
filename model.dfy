/** The serializer as a value: one function per operation of `Serializer`, from
    the old writer to the result and the new writer. The class in `Ser` is proved
    to follow these functions and `Trace` composes them. */
module Model {
  import opened Types
  import opened Scope

  /** The fields of `Serializer`: the text written to the sink so far, the table
      from namespace URI to prefix, the default namespace and the state. */
  datatype Writer = Writer(output: string, prefixes: map<string, string>, defaultNs: string, state: State)

  /** Two writers agree on the namespace scope (table and default namespace). */
  predicate SameScope(w: Writer, w': Writer) {
    w'.prefixes == w.prefixes && w'.defaultNs == w.defaultNs
  }

  /** `Serializer::new` over a sink that already holds `sink`. */
  function New(sink: string): Writer {
    Writer(sink, map[], "", Element)
  }

  /** The text `write_start` writes and the prefix it returns: nothing about the
      namespace when it is the default one, the bound prefix for a scalar element,
      and otherwise a default-namespace declaration. */
  function StartTag(w: Writer, name: string, ns: string, scalar: bool): (string, Option<string>) {
    if ns == w.defaultNs then ("<" + name, None)
    else if scalar && ns in w.prefixes then ("<" + w.prefixes[ns] + ":" + name, Some(w.prefixes[ns]))
    else ("<" + name + " xmlns=\"" + ns + "\"", None)
  }

  function WriteStart(w: Writer, name: string, ns: string, scalar: bool): (r: Result<(Writer, Option<string>)>)
    ensures r.Ok? <==> w.state == Element
    ensures r.Ok? ==> r.value.0.state == Attribute && SameScope(w, r.value.0) && w.output <= r.value.0.output
  {
    if w.state != Element then Err(UnexpectedState)
    else
      var (text, prefix) := StartTag(w, name, ns, scalar);
      Ok((w.(output := w.output + text, state := Attribute), prefix))
  }

  /** The text before an attribute's value: ` name="` or ` prefix:name="`. */
  function AttrHead(w: Writer, name: string, ns: string): string
    requires ns == w.defaultNs || ns in w.prefixes
  {
    if ns == w.defaultNs then " " + name + "=\"" else " " + w.prefixes[ns] + ":" + name + "=\""
  }

  /** `write_str`: the value's text goes out verbatim. */
  function WriteStr(w: Writer, value: string): (r: Result<Writer>)
    ensures r.Ok? <==> w.state == Element || w.state == Scalar
    ensures r.Ok? ==> r.value.state == Element && SameScope(w, r.value) && w.output <= r.value.output
  {
    if w.state != Element && w.state != Scalar then Err(UnexpectedState)
    else Ok(w.(output := w.output + value, state := Element))
  }

  /** `write_attr`, with the attribute's value serialized as the text `value`
      through `write_str` in the `Scalar` state. */
  function WriteAttr(w: Writer, name: string, ns: string, value: string): (r: Result<Writer>)
    ensures r.Ok? <==> w.state == Attribute && (ns == w.defaultNs || ns in w.prefixes)
    ensures r.Ok? ==> r.value.state == Attribute && SameScope(w, r.value) && w.output <= r.value.output
  {
    if w.state != Attribute then Err(UnexpectedState)
    else if ns != w.defaultNs && ns !in w.prefixes then Err(UnexpectedState)
    else
      var inValue := w.(output := w.output + AttrHead(w, name, ns), state := Scalar);
      match WriteStr(inValue, value)
      case Err(e) => Err(e)
      case Ok(after) => Ok(after.(output := after.output + "\"", state := Attribute))
  }

  function EndStart(w: Writer): (r: Result<Writer>)
    ensures r.Ok? <==> w.state == Attribute
    ensures r.Ok? ==> r.value.state == Element && SameScope(w, r.value) && w.output <= r.value.output
  {
    if w.state != Attribute then Err(UnexpectedState)
    else Ok(w.(output := w.output + ">", state := Element))
  }

  /** The end tag `</prefix:name>` or `</name>`. */
  function CloseTag(prefix: Option<string>, name: string): string {
    match prefix
    case Some(p) => "</" + p + ":" + name + ">"
    case None => "</" + name + ">"
  }

  function WriteClose(w: Writer, prefix: Option<string>, name: string): (r: Result<Writer>)
    ensures r.Ok? <==> w.state == Element
    ensures r.Ok? ==> r.value.state == Element && SameScope(w, r.value) && w.output <= r.value.output
  {
    if w.state != Element then Err(UnexpectedState)
    else Ok(w.(output := w.output + CloseTag(prefix, name)))
  }

  /** `push`: install the frame's default namespace and its new prefixes, and
      return the undo frame that restores the previous scope. The new table binds
      each URI that was unbound to the prefix of the first frame entry naming it;
      later entries for the same URI are skipped. */
  function Push(w: Writer, ctx: Context): (r: Result<(Writer, Context)>)
    ensures r.Ok? <==> w.state == Attribute
    ensures r.Ok? ==>
      var (w', undo) := r.value;
      && w'.state == w.state && w.output <= w'.output
      && w'.defaultNs == ctx.defaultNs && undo.defaultNs == w.defaultNs
      && |undo.prefixes| == |ctx.prefixes|
      && (forall k :: 0 <= k < |undo.prefixes| ==> undo.prefixes[k].prefix == "")
      && (forall x :: x in w.prefixes ==> x in w'.prefixes && w'.prefixes[x] == w.prefixes[x])
      && (forall k :: 0 <= k < |ctx.prefixes| && ctx.prefixes[k].prefix != "" ==> ctx.prefixes[k].ns in w'.prefixes)
      && w'.prefixes.Keys == w.prefixes.Keys + PrefixedUris(ctx.prefixes)
      && (forall k :: 0 <= k < |ctx.prefixes| && ctx.prefixes[k].prefix != "" && ctx.prefixes[k].ns !in w.prefixes &&
                      FirstForUri(ctx.prefixes, 0, k)
                      ==> w'.prefixes[ctx.prefixes[k].ns] == ctx.prefixes[k].prefix)
  {
    if w.state != Attribute then Err(UnexpectedState)
    else
      var inst := Installed(w.prefixes, ctx.prefixes);
      BindFacts(w.prefixes, inst);
      InstalledFacts(w.prefixes, ctx.prefixes);
      InstalledBindsFirst(w.prefixes, ctx.prefixes);
      var w' := w.(output := w.output + Declarations(inst),
                   prefixes := Bind(w.prefixes, inst),
                   defaultNs := ctx.defaultNs);
      Ok((w', Context(w.defaultNs, UndoSlots(inst, |ctx.prefixes|))))
  }

  /** `pop`: restore the default namespace and undo the recorded bindings.
      The precondition is the `unreachable!()` of the source: every recorded URI
      is still bound when its slot is reached. */
  function Pop(w: Writer, undo: Context): (w': Writer)
    requires PopDefined(w.prefixes, undo.prefixes)
    ensures w'.output == w.output && w'.state == w.state && w'.defaultNs == undo.defaultNs
  {
    w.(prefixes := Restore(w.prefixes, undo.prefixes), defaultNs := undo.defaultNs)
  }

  /** An element in the default namespace gets no namespace token at all. */
  lemma DefaultNamespaceShortCircuit(w: Writer, name: string, ns: string, scalar: bool)
    requires w.state == Element && ns == w.defaultNs
    ensures WriteStart(w, name, ns, scalar) == Ok((w.(output := w.output + "<" + name, state := Attribute), None))
  {
    assert w.output + ("<" + name) == w.output + "<" + name;
  }

  /** A scalar element in a namespace that has a prefix uses that prefix and
      returns it for the end tag. */
  lemma ScalarUsesBoundPrefix(w: Writer, name: string, ns: string)
    requires w.state == Element && ns != w.defaultNs && ns in w.prefixes
    ensures var p := w.prefixes[ns];
            WriteStart(w, name, ns, true) == Ok((w.(output := w.output + "<" + p + ":" + name, state := Attribute), Some(p)))
  {
    var p := w.prefixes[ns];
    assert w.output + ("<" + p + ":" + name) == w.output + "<" + p + ":" + name;
  }

  /** Prefix reuse: a frame that binds a URI the table already binds declares
      nothing for it and leaves its prefix as it was; a frame all of whose URIs
      are bound writes nothing and leaves the table as it was. */
  lemma PushReusesBoundPrefix(w: Writer, ctx: Context, ns: string)
    requires w.state == Attribute && ns in w.prefixes
    ensures var (w', _) := Push(w, ctx).value;
            && ns !in Uris(Installed(w.prefixes, ctx.prefixes))
            && w'.prefixes[ns] == w.prefixes[ns]
  {
    InstalledFacts(w.prefixes, ctx.prefixes);
    BindFacts(w.prefixes, Installed(w.prefixes, ctx.prefixes));
  }

  lemma {:induction false} PushOfBoundUrisWritesNothing(w: Writer, ctx: Context)
    requires w.state == Attribute
    requires forall k :: 0 <= k < |ctx.prefixes| && ctx.prefixes[k].prefix != "" ==> ctx.prefixes[k].ns in w.prefixes
    ensures var (w', _) := Push(w, ctx).value;
            w'.output == w.output && w'.prefixes == w.prefixes
  {
    InstallFromNothingWhenBound(w.prefixes, ctx.prefixes, 0);
  }

  /** Scope balance for one frame: pop of the frame push returns gives back the
      table and the default namespace, for frames that bind no prefix to "". */
  lemma PushPopRestoresScope(w: Writer, ctx: Context)
    requires w.state == Attribute && NoEmptyUri(ctx.prefixes)
    ensures var (w', undo) := Push(w, ctx).value;
            PopDefined(w'.prefixes, undo.prefixes) && SameScope(w, Pop(w', undo))
  {
    PushPopRestoresTable(w.prefixes, ctx.prefixes);
  }

  /** Without that condition the balance breaks: a prefix bound to the empty URI
      stays in the table after the pop. */
  lemma PushPopLeaksEmptyUri(w: Writer, d: string, p: string)
    requires w.state == Attribute && "" !in w.prefixes && p != ""
    ensures var (w', undo) := Push(w, Context(d, [Prefix(p, "")])).value;
            PopDefined(w'.prefixes, undo.prefixes) &&
            Pop(w', undo).prefixes == w.prefixes["" := p] != w.prefixes
  {
    EmptyUriBindingLeaks(w.prefixes, p);
  }
}
