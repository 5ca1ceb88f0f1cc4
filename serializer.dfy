/** `Serializer`: the writer object whose methods append to the output and update
    the namespace table, the default namespace and the state in place. Each method
    is proved to do what the matching function of `Model` describes. */
module Ser {
  import opened Types
  import opened Scope
  import Model

  class Serializer {
    /** The sink, as the text written to it so far; appending always succeeds. */
    var output: string
    /** The table from namespace URI to prefix. */
    var prefixes: map<string, string>
    var defaultNs: string
    var state: State

    /** The fields as a `Model.Writer` value. */
    ghost function Snapshot(): Model.Writer
      reads this
    {
      Model.Writer(output, prefixes, defaultNs, state)
    }

    /** `Serializer::new`: ready for an element, empty table, empty default
        namespace, and nothing added to the sink. */
    constructor (sink: string)
      ensures output == sink && prefixes == map[] && defaultNs == "" && state == Element
      ensures Snapshot() == Model.New(sink)
    {
      output := sink;
      prefixes := map[];
      defaultNs := "";
      state := Element;
    }

    method WriteStart(name: string, ns: string, scalar: bool) returns (r: Result<Option<string>>)
      modifies this
      ensures old(state) != Element ==> r == Err(UnexpectedState) && unchanged(this)
      ensures old(state) == Element ==>
        && state == Attribute && prefixes == old(prefixes) && defaultNs == old(defaultNs)
        && (ns == old(defaultNs) ==> output == old(output) + ("<" + name) && r == Ok(None))
        && (ns != old(defaultNs) && scalar && ns in old(prefixes) ==>
              output == old(output) + ("<" + old(prefixes)[ns] + ":" + name) && r == Ok(Some(old(prefixes)[ns])))
        && (ns != old(defaultNs) && (!scalar || ns !in old(prefixes)) ==>
              output == old(output) + ("<" + name + " xmlns=\"" + ns + "\"") && r == Ok(None))
      ensures Model.WriteStart(old(Snapshot()), name, ns, scalar) ==
              if r.Ok? then Ok((Snapshot(), r.value)) else Err(r.error)
    {
      if state != Element {
        return Err(UnexpectedState);
      }
      var prefix: Option<string>;
      if ns == defaultNs {
        output := output + ("<" + name);
        prefix := None;
      } else if !scalar || ns !in prefixes {
        output := output + ("<" + name + " xmlns=\"" + ns + "\"");
        prefix := None;
      } else {
        var p := prefixes[ns];
        output := output + ("<" + p + ":" + name);
        prefix := Some(p);
      }
      state := Attribute;
      r := Ok(prefix);
    }

    /** `write_attr`; the attribute's value serializes itself as the text `value`
        through `WriteStr` while the state is `Scalar`. */
    method WriteAttr(name: string, ns: string, value: string) returns (r: Result<()>)
      modifies this
      ensures r.Err? <==> old(state) != Attribute || (ns != old(defaultNs) && ns !in old(prefixes))
      ensures r.Err? ==> r.error == UnexpectedState && unchanged(this)
      ensures r.Ok? ==>
        && state == Attribute && prefixes == old(prefixes) && defaultNs == old(defaultNs)
        && (ns == old(defaultNs) ==> output == old(output) + (" " + name + "=\"") + value + "\"")
        && (ns != old(defaultNs) ==>
              output == old(output) + (" " + old(prefixes)[ns] + ":" + name + "=\"") + value + "\"")
      ensures Model.WriteAttr(old(Snapshot()), name, ns, value) ==
              if r.Ok? then Ok(Snapshot()) else Err(r.error)
    {
      if state != Attribute {
        return Err(UnexpectedState);
      }
      if ns == defaultNs {
        output := output + (" " + name + "=\"");
      } else {
        if ns !in prefixes {
          return Err(UnexpectedState);
        }
        output := output + (" " + prefixes[ns] + ":" + name + "=\"");
      }
      state := Scalar;
      var written := WriteStr(value);
      assert written.Ok?;
      state := Attribute;
      output := output + "\"";
      r := Ok(());
    }

    /** `write_str`: the value's text, verbatim. */
    method WriteStr(value: string) returns (r: Result<()>)
      modifies this
      ensures old(state) != Element && old(state) != Scalar ==> r == Err(UnexpectedState) && unchanged(this)
      ensures old(state) == Element || old(state) == Scalar ==>
        && r == Ok(()) && output == old(output) + value && state == Element
        && prefixes == old(prefixes) && defaultNs == old(defaultNs)
      ensures Model.WriteStr(old(Snapshot()), value) == if r.Ok? then Ok(Snapshot()) else Err(r.error)
    {
      if state != Element && state != Scalar {
        return Err(UnexpectedState);
      }
      output := output + value;
      state := Element;
      r := Ok(());
    }

    /** `end_start`: close the start tag with `>`. */
    method EndStart() returns (r: Result<()>)
      modifies this
      ensures old(state) != Attribute ==> r == Err(UnexpectedState) && unchanged(this)
      ensures old(state) == Attribute ==>
        && r == Ok(()) && output == old(output) + ">" && state == Element
        && prefixes == old(prefixes) && defaultNs == old(defaultNs)
      ensures Model.EndStart(old(Snapshot())) == if r.Ok? then Ok(Snapshot()) else Err(r.error)
    {
      if state != Attribute {
        return Err(UnexpectedState);
      }
      output := output + ">";
      state := Element;
      r := Ok(());
    }

    /** `write_close`: the end tag, with the prefix `write_start` returned. */
    method WriteClose(prefix: Option<string>, name: string) returns (r: Result<()>)
      modifies this
      ensures old(state) != Element ==> r == Err(UnexpectedState) && unchanged(this)
      ensures old(state) == Element ==>
        && r == Ok(()) && state == Element && prefixes == old(prefixes) && defaultNs == old(defaultNs)
        && (prefix.Some? ==> output == old(output) + ("</" + prefix.value + ":" + name + ">"))
        && (prefix.None? ==> output == old(output) + ("</" + name + ">"))
      ensures Model.WriteClose(old(Snapshot()), prefix, name) == if r.Ok? then Ok(Snapshot()) else Err(r.error)
    {
      if state != Element {
        return Err(UnexpectedState);
      }
      match prefix {
        case Some(p) => output := output + ("</" + p + ":" + name + ">");
        case None => output := output + ("</" + name + ">");
      }
      r := Ok(());
    }

    /** `push`: install the frame's default namespace and declare each of its
        prefixes whose URI is not bound yet, recording in the undo frame, slot by
        slot, the URI and its previous prefix (always ""). */
    method Push(ctx: Context) returns (r: Result<Context>)
      modifies this
      ensures old(state) != Attribute ==> r == Err(UnexpectedState) && unchanged(this)
      ensures old(state) == Attribute ==>
        var inst := Installed(old(prefixes), ctx.prefixes);
        && r == Ok(Context(old(defaultNs), UndoSlots(inst, |ctx.prefixes|)))
        && state == Attribute && defaultNs == ctx.defaultNs
        && prefixes == Bind(old(prefixes), inst)
        && output == old(output) + Declarations(inst)
      ensures Model.Push(old(Snapshot()), ctx) ==
              if r.Ok? then Ok((Snapshot(), r.value)) else Err(r.error)
    {
      if state != Attribute {
        return Err(UnexpectedState);
      }
      ghost var before := Snapshot();
      var n := |ctx.prefixes|;
      var undo := DefaultContext(n);
      var slots := new Prefix[n](k requires 0 <= k < n => undo.prefixes[k]);
      var previous := defaultNs;
      defaultNs := ctx.defaultNs;
      ghost var table := prefixes;
      ghost var written := output;
      var used := 0;
      ghost var done: seq<Prefix> := [];
      for i := 0 to n
        invariant PushLoop(prefixes, output, done, ctx.prefixes, i) == PushLoop(table, written, [], ctx.prefixes, 0)
        invariant used == |done| <= i
        invariant slots[..] == UndoSlots(done, n)
        invariant state == Attribute && defaultNs == ctx.defaultNs
      {
        var p := ctx.prefixes[i];
        if p.prefix != "" && p.ns !in prefixes {
          output := output + Declaration(p);
          // The entry is vacant: a bound URI was skipped just above.
          prefixes := prefixes[p.ns := p.prefix];
          UndoSlotsSnoc(done, p, n);
          slots[used] := Prefix("", p.ns);
          used := used + 1;
          done := done + [p];
        }
      }
      PushLoopDeclaresInstalled(table, written, [], ctx.prefixes, 0);
      ghost var inst := Installed(table, ctx.prefixes);
      assert [] + inst == inst;
      r := Ok(Context(previous, slots[..]));
      assert Model.Push(before, ctx) == Ok((Snapshot(), r.value));
    }

    /** `pop`: restore the default namespace and go through the undo slots,
        skipping sentinels, removing a URI whose recorded prefix is "" and
        otherwise putting the recorded prefix back. The precondition is the
        `unreachable!()`: the table binds every recorded URI when it is reached. */
    method Pop(undo: Context)
      requires PopDefined(prefixes, undo.prefixes)
      modifies this
      ensures defaultNs == undo.defaultNs && prefixes == Restore(old(prefixes), undo.prefixes)
      ensures output == old(output) && state == old(state)
      ensures Snapshot() == Model.Pop(old(Snapshot()), undo)
    {
      defaultNs := undo.defaultNs;
      ghost var table := prefixes;
      for i := 0 to |undo.prefixes|
        invariant prefixes == Restore(table, undo.prefixes[..i])
        invariant defaultNs == undo.defaultNs && output == old(output) && state == old(state)
      {
        PopStep(table, undo.prefixes, i);
        var p := undo.prefixes[i];
        if !(p.ns == "" && p.prefix == "") {
          assert p.ns in prefixes;
          if p.prefix == "" {
            prefixes := prefixes - {p.ns};
          } else {
            prefixes := prefixes[p.ns := p.prefix];
          }
        }
      }
      assert undo.prefixes[..|undo.prefixes|] == undo.prefixes;
    }

    /** `prefix`: the prefix bound to `ns`, if any. */
    function PrefixFor(ns: string): (r: Option<string>)
      reads this
      ensures r.Some? <==> ns in prefixes
      ensures r.Some? ==> prefixes[ns] == r.value
    {
      if ns in prefixes then Some(prefixes[ns]) else None
    }

    /** `default_ns`: the namespace an unprefixed element is in. */
    function DefaultNs(): (r: string)
      reads this
      ensures r == Snapshot().defaultNs
    {
      defaultNs
    }
  }
}
