/** The namespace table algebra behind `Serializer::push` and `Serializer::pop`:
    which bindings a push declares, the table it leaves, the undo frame it hands
    back, and what a pop of that frame does to the table. */
module Scope {
  import opened Types

  /** The URIs a list of bindings mentions. */
  function Uris(bs: seq<Prefix>): set<string> {
    set k | 0 <= k < |bs| :: bs[k].ns
  }

  /** No two bindings of the list are for the same URI. */
  predicate DistinctUris(bs: seq<Prefix>) {
    forall j, k :: 0 <= j < k < |bs| ==> bs[j].ns != bs[k].ns
  }

  /** A non-empty list of bindings split before its last binding. */
  lemma SplitLast(bs: seq<Prefix>)
    requires bs != []
    ensures var init, last := bs[..|bs| - 1], bs[|bs| - 1];
      && bs == init + [last]
      && Uris(bs) == Uris(init) + {last.ns}
      && (DistinctUris(bs) ==> DistinctUris(init) && last.ns !in Uris(init))
  {
  }

  /** The table `m` after inserting the bindings `bs`, first to last. */
  function Bind(m: map<string, string>, bs: seq<Prefix>): map<string, string>
    decreases |bs|
  {
    if bs == [] then m
    else Bind(m, bs[..|bs| - 1])[bs[|bs| - 1].ns := bs[|bs| - 1].prefix]
  }

  lemma {:induction false} BindFacts(m: map<string, string>, bs: seq<Prefix>)
    ensures Bind(m, bs).Keys == m.Keys + Uris(bs)
    ensures forall x :: x in m && x !in Uris(bs) ==> Bind(m, bs)[x] == m[x]
    ensures DistinctUris(bs) ==> forall k :: 0 <= k < |bs| ==> Bind(m, bs)[bs[k].ns] == bs[k].prefix
    decreases |bs|
  {
    if bs != [] {
      var init := bs[..|bs| - 1];
      BindFacts(m, init);
      SplitLast(bs);
      if DistinctUris(bs) {
        forall k | 0 <= k < |bs| ensures Bind(m, bs)[bs[k].ns] == bs[k].prefix {
          if k < |bs| - 1 { assert init[k] == bs[k]; }
        }
      }
    }
  }

  lemma {:induction false} BindCons(m: map<string, string>, e: Prefix, bs: seq<Prefix>)
    ensures Bind(m, [e] + bs) == Bind(m[e.ns := e.prefix], bs)
    decreases |bs|
  {
    if bs != [] {
      assert ([e] + bs)[..|[e] + bs| - 1] == [e] + bs[..|bs| - 1];
      BindCons(m, e, bs[..|bs| - 1]);
    } else {
      assert ([e] + bs)[..0] == [];
    }
  }

  /** The bindings that the loop of `push` declares from slot `i` of `entries` on,
      with `t` the table as the earlier slots left it: an entry whose prefix is
      empty is skipped, and so is an entry whose URI the table already binds. */
  function InstallFrom(t: map<string, string>, entries: seq<Prefix>, i: nat): (inst: seq<Prefix>)
    requires i <= |entries|
    ensures |inst| <= |entries| - i
    decreases |entries| - i
  {
    if i == |entries| then []
    else
      var e := entries[i];
      if e.prefix == "" || e.ns in t then InstallFrom(t, entries, i + 1)
      else [e] + InstallFrom(t[e.ns := e.prefix], entries, i + 1)
  }

  /** What the loop declares are entries of the frame with a non-empty prefix, for
      URIs the table does not bind. */
  lemma {:induction false} InstallFromEntries(t: map<string, string>, entries: seq<Prefix>, i: nat)
    requires i <= |entries|
    ensures forall k :: 0 <= k < |InstallFrom(t, entries, i)| ==>
      var p := InstallFrom(t, entries, i)[k]; p in entries && p.prefix != "" && p.ns !in t
    decreases |entries| - i
  {
    if i < |entries| {
      var e := entries[i];
      if e.prefix == "" || e.ns in t {
        InstallFromEntries(t, entries, i + 1);
      } else {
        var t' := t[e.ns := e.prefix];
        var rest := InstallFrom(t', entries, i + 1);
        InstallFromEntries(t', entries, i + 1);
        var inst := [e] + rest;
        assert e in entries;
        forall k | 0 < k < |inst|
          ensures inst[k] in entries && inst[k].prefix != "" && inst[k].ns !in t
        {
          assert inst[k] == rest[k - 1];
        }
      }
    }
  }

  /** The loop never declares a URI twice. */
  lemma {:induction false} InstallFromDistinct(t: map<string, string>, entries: seq<Prefix>, i: nat)
    requires i <= |entries|
    ensures DistinctUris(InstallFrom(t, entries, i))
    decreases |entries| - i
  {
    if i < |entries| {
      var e := entries[i];
      if e.prefix == "" || e.ns in t {
        InstallFromDistinct(t, entries, i + 1);
      } else {
        var t' := t[e.ns := e.prefix];
        var rest := InstallFrom(t', entries, i + 1);
        InstallFromDistinct(t', entries, i + 1);
        InstallFromEntries(t', entries, i + 1);
        var inst := [e] + rest;
        forall j, k | 0 <= j < k < |inst| ensures inst[j].ns != inst[k].ns {
          assert inst[k] == rest[k - 1] && rest[k - 1].ns !in t';
          if j > 0 { assert inst[j] == rest[j - 1]; } else { assert e.ns in t'; }
        }
      }
    }
  }

  /** After the loop every entry with a prefix is bound, by the table or by a
      declaration. */
  lemma {:induction false} InstallFromBinds(t: map<string, string>, entries: seq<Prefix>, i: nat)
    requires i <= |entries|
    ensures var inst := InstallFrom(t, entries, i);
      forall j :: i <= j < |entries| && entries[j].prefix != "" ==> entries[j].ns in Bind(t, inst)
    decreases |entries| - i
  {
    if i < |entries| {
      var e := entries[i];
      if e.prefix == "" || e.ns in t {
        var rest := InstallFrom(t, entries, i + 1);
        InstallFromBinds(t, entries, i + 1);
        BindFacts(t, rest);
      } else {
        var t' := t[e.ns := e.prefix];
        var rest := InstallFrom(t', entries, i + 1);
        InstallFromBinds(t', entries, i + 1);
        BindCons(t, e, rest);
        BindFacts(t', rest);
      }
    }
  }

  /** The bindings a push of the frame `entries` onto the table `m` declares, in order. */
  function Installed(m: map<string, string>, entries: seq<Prefix>): (inst: seq<Prefix>)
    ensures |inst| <= |entries|
  {
    InstallFrom(m, entries, 0)
  }

  lemma InstalledFacts(m: map<string, string>, entries: seq<Prefix>)
    ensures var inst := Installed(m, entries);
      && (forall k :: 0 <= k < |inst| ==> inst[k] in entries && inst[k].prefix != "" && inst[k].ns !in m)
      && DistinctUris(inst)
      && (forall j :: 0 <= j < |entries| && entries[j].prefix != "" ==> entries[j].ns in Bind(m, inst))
  {
    InstallFromEntries(m, entries, 0);
    InstallFromDistinct(m, entries, 0);
    InstallFromBinds(m, entries, 0);
  }

  /** No entry before slot `j`, from slot `i` on, has a prefix for the URI of entry `j`:
      entry `j` is the first of the frame to name that URI with a prefix. */
  predicate FirstForUri(entries: seq<Prefix>, i: nat, j: nat)
    requires j < |entries|
  {
    forall j' :: i <= j' < j && entries[j'].prefix != "" ==> entries[j'].ns != entries[j].ns
  }

  /** The first prefixed entry of the frame for a URI the table does not bind is
      itself declared: a later entry for the same URI is the one skipped. */
  lemma {:induction false} FirstWins(t: map<string, string>, entries: seq<Prefix>, i: nat)
    requires i <= |entries|
    ensures forall j :: i <= j < |entries| && entries[j].prefix != "" && entries[j].ns !in t && FirstForUri(entries, i, j)
                        ==> entries[j] in InstallFrom(t, entries, i)
    decreases |entries| - i
  {
    if i < |entries| {
      var e := entries[i];
      if e.prefix == "" || e.ns in t {
        FirstWins(t, entries, i + 1);
      } else {
        FirstWins(t[e.ns := e.prefix], entries, i + 1);
      }
    }
  }

  /** The URIs of the frame's entries that have a prefix. */
  function PrefixedUris(entries: seq<Prefix>): set<string> {
    set k | 0 <= k < |entries| && entries[k].prefix != "" :: entries[k].ns
  }

  /** The table after a push: its keys are the old ones plus every URI the frame
      gives a prefix, and a URI that was not bound gets the prefix of the first
      frame entry naming it. */
  lemma InstalledBindsFirst(m: map<string, string>, entries: seq<Prefix>)
    ensures var t := Bind(m, Installed(m, entries));
      && t.Keys == m.Keys + PrefixedUris(entries)
      && (forall j :: 0 <= j < |entries| && entries[j].prefix != "" && entries[j].ns !in m && FirstForUri(entries, 0, j)
                      ==> t[entries[j].ns] == entries[j].prefix)
  {
    var inst := Installed(m, entries);
    InstalledFacts(m, entries);
    BindFacts(m, inst);
    FirstWins(m, entries, 0);
    forall x | x in Uris(inst) ensures x in PrefixedUris(entries) {
      var k :| 0 <= k < |inst| && inst[k].ns == x;
      var j :| 0 <= j < |entries| && entries[j] == inst[k];
    }
    forall x | x in PrefixedUris(entries) ensures x in m.Keys + Uris(inst) {
      var j :| 0 <= j < |entries| && entries[j].prefix != "" && entries[j].ns == x;
    }
    forall j | 0 <= j < |entries| && entries[j].prefix != "" && entries[j].ns !in m && FirstForUri(entries, 0, j)
      ensures Bind(m, inst)[entries[j].ns] == entries[j].prefix
    {
      var k :| 0 <= k < |inst| && inst[k] == entries[j];
    }
  }

  /** A frame whose URIs are all bound already installs nothing. */
  lemma {:induction false} InstallFromNothingWhenBound(t: map<string, string>, entries: seq<Prefix>, i: nat)
    requires i <= |entries|
    requires forall k :: i <= k < |entries| && entries[k].prefix != "" ==> entries[k].ns in t
    ensures InstallFrom(t, entries, i) == []
    decreases |entries| - i
  {
    if i < |entries| {
      InstallFromNothingWhenBound(t, entries, i + 1);
    }
  }

  /** The text `push` writes for one declaration: ` xmlns:prefix="ns"`. */
  function Declaration(p: Prefix): string {
    " xmlns:" + p.prefix + "=\"" + p.ns + "\""
  }

  /** The declarations of a list of bindings, first to last. */
  function Declarations(bs: seq<Prefix>): string
    decreases |bs|
  {
    if bs == [] then "" else Declaration(bs[0]) + Declarations(bs[1..])
  }

  /** The state the loop of `push` reaches from slot `i` on, started with the table
      `t`, the output `out` and the declared bindings `done`: its accumulator form,
      which is what the loop's invariant follows. */
  function PushLoop(t: map<string, string>, out: string, done: seq<Prefix>, entries: seq<Prefix>, i: nat)
    : (map<string, string>, string, seq<Prefix>)
    requires i <= |entries|
    decreases |entries| - i
  {
    if i == |entries| then (t, out, done)
    else
      var e := entries[i];
      if e.prefix == "" || e.ns in t then PushLoop(t, out, done, entries, i + 1)
      else PushLoop(t[e.ns := e.prefix], out + Declaration(e), done + [e], entries, i + 1)
  }

  /** The loop declares exactly `InstallFrom`: it binds those bindings, writes their
      declarations and collects them. */
  lemma {:induction false} PushLoopDeclaresInstalled(t: map<string, string>, out: string, done: seq<Prefix>,
                                                     entries: seq<Prefix>, i: nat)
    requires i <= |entries|
    ensures var rest := InstallFrom(t, entries, i);
            PushLoop(t, out, done, entries, i) == (Bind(t, rest), out + Declarations(rest), done + rest)
    decreases |entries| - i
  {
    if i == |entries| {
      assert done + [] == done && out + "" == out;
    } else {
      var e := entries[i];
      if e.prefix == "" || e.ns in t {
        PushLoopDeclaresInstalled(t, out, done, entries, i + 1);
      } else {
        var t' := t[e.ns := e.prefix];
        var rest := InstallFrom(t', entries, i + 1);
        PushLoopDeclaresInstalled(t', out + Declaration(e), done + [e], entries, i + 1);
        BindCons(t, e, rest);
        assert ([e] + rest)[1..] == rest;
        assert out + Declaration(e) + Declarations(rest) == out + (Declaration(e) + Declarations(rest));
        assert done + [e] + rest == done + ([e] + rest);
      }
    }
  }

  /** What `push` records for each binding it inserted: the URI with the previous
      prefix, which is always "" because a URI that was bound is skipped. */
  function Removals(inst: seq<Prefix>): seq<Prefix> {
    seq(|inst|, k requires 0 <= k < |inst| => Prefix("", inst[k].ns))
  }

  /** The undo frame's N slots: the removals, then unused sentinel slots. */
  function UndoSlots(inst: seq<Prefix>, n: nat): seq<Prefix>
    requires |inst| <= n
  {
    Removals(inst) + DefaultContext(n - |inst|).prefixes
  }

  /** Recording one more insertion fills the first unused slot. */
  lemma UndoSlotsSnoc(inst: seq<Prefix>, p: Prefix, n: nat)
    requires |inst| < n
    ensures UndoSlots(inst + [p], n) == UndoSlots(inst, n)[|inst| := Prefix("", p.ns)]
  {
  }

  /** One step of the loop of `pop`: skip a sentinel slot, remove the URI when the
      recorded previous prefix is "", and otherwise put the recorded prefix back. */
  function Unbind(m: map<string, string>, p: Prefix): map<string, string> {
    if IsSentinel(p) then m
    else if p.prefix == "" then m - {p.ns}
    else m[p.ns := p.prefix]
  }

  /** The table after `pop` has gone through the undo slots, first to last. */
  function Restore(m: map<string, string>, undo: seq<Prefix>): map<string, string>
    decreases |undo|
  {
    if undo == [] then m else Unbind(Restore(m, undo[..|undo| - 1]), undo[|undo| - 1])
  }

  /** Every non-sentinel slot names a URI that the table binds when `pop` reaches it;
      otherwise `pop` hits its `unreachable!()`. */
  predicate PopDefined(m: map<string, string>, undo: seq<Prefix>)
    decreases |undo|
  {
    undo == [] ||
    (PopDefined(m, undo[..|undo| - 1]) &&
     (IsSentinel(undo[|undo| - 1]) || undo[|undo| - 1].ns in Restore(m, undo[..|undo| - 1])))
  }

  lemma {:induction false} PopDefinedPrefix(m: map<string, string>, undo: seq<Prefix>, i: nat)
    requires i <= |undo| && PopDefined(m, undo)
    ensures PopDefined(m, undo[..i])
    decreases |undo|
  {
    if i < |undo| {
      assert undo[..|undo| - 1][..i] == undo[..i];
      PopDefinedPrefix(m, undo[..|undo| - 1], i);
    } else {
      assert undo[..i] == undo;
    }
  }

  /** One turn of the loop of `pop`: slot `i` is folded onto the table the earlier
      slots left, and that table binds the slot's URI unless the slot is unused. */
  lemma PopStep(m: map<string, string>, undo: seq<Prefix>, i: nat)
    requires i < |undo| && PopDefined(m, undo)
    ensures Restore(m, undo[..i + 1]) == Unbind(Restore(m, undo[..i]), undo[i])
    ensures !IsSentinel(undo[i]) ==> undo[i].ns in Restore(m, undo[..i])
  {
    PopDefinedPrefix(m, undo, i + 1);
    assert undo[..i + 1][..i] == undo[..i];
  }

  /** No binding with a non-empty prefix is for the empty URI. */
  predicate NoEmptyUri(entries: seq<Prefix>) {
    forall k :: 0 <= k < |entries| && entries[k].prefix != "" ==> entries[k].ns != ""
  }

  lemma {:induction false} RestoreAppend(m: map<string, string>, a: seq<Prefix>, b: seq<Prefix>)
    ensures Restore(m, a + b) == Restore(Restore(m, a), b)
    ensures PopDefined(m, a + b) <==> PopDefined(m, a) && PopDefined(Restore(m, a), b)
    decreases |b|
  {
    if b == [] {
      assert a + b == a;
    } else {
      var b' := b[..|b| - 1];
      assert (a + b)[..|a + b| - 1] == a + b';
      assert (a + b)[|a + b| - 1] == b[|b| - 1];
      RestoreAppend(m, a, b');
    }
  }

  /** The unused slots of `Context::default()` leave the table alone. */
  lemma {:induction false} RestoreSentinels(m: map<string, string>, n: nat)
    ensures Restore(m, DefaultContext(n).prefixes) == m
    ensures PopDefined(m, DefaultContext(n).prefixes)
  {
    if n > 0 {
      var s := DefaultContext(n).prefixes;
      assert s[..n - 1] == DefaultContext(n - 1).prefixes;
      RestoreSentinels(m, n - 1);
    }
  }

  /** Popping the removals of distinct bound URIs never reaches the `unreachable!()`
      and deletes exactly those URIs, except the empty one, whose slot `pop` takes
      for an unused one. */
  lemma {:induction false} RestoreRemovals(t: map<string, string>, inst: seq<Prefix>)
    requires DistinctUris(inst) && Uris(inst) <= t.Keys
    ensures PopDefined(t, Removals(inst))
    ensures Restore(t, Removals(inst)) == t - (Uris(inst) - {""})
    decreases |inst|
  {
    if inst != [] {
      var init := inst[..|inst| - 1];
      var last := inst[|inst| - 1];
      assert Removals(inst)[..|inst| - 1] == Removals(init);
      assert Removals(inst)[|inst| - 1] == Prefix("", last.ns);
      SplitLast(inst);
      RestoreRemovals(t, init);
      var before := t - (Uris(init) - {""});
      assert Restore(t, Removals(inst)) == Unbind(before, Prefix("", last.ns));
      if last.ns == "" {
        assert Uris(inst) - {""} == Uris(init) - {""};
      } else {
        assert last.ns in before;
        assert Uris(inst) - {""} == (Uris(init) - {""}) + {last.ns};
      }
    }
  }

  /** The bindings a push declares are for distinct URIs that the new table binds
      and the old one did not, so removing them gives back the old table. */
  lemma RemoveInstalled(m: map<string, string>, entries: seq<Prefix>)
    ensures var inst := Installed(m, entries);
            && DistinctUris(inst) && m.Keys !! Uris(inst)
            && Bind(m, inst).Keys == m.Keys + Uris(inst) && Bind(m, inst) - Uris(inst) == m
  {
    var inst := Installed(m, entries);
    BindFacts(m, inst);
    InstalledFacts(m, entries);
    assert forall x :: x in Uris(inst) ==> x !in m;
  }

  /** With no prefix bound to the empty URI, no declared binding is for it. */
  lemma InstalledNonEmpty(m: map<string, string>, entries: seq<Prefix>)
    requires NoEmptyUri(entries)
    ensures "" !in Uris(Installed(m, entries))
  {
    InstalledFacts(m, entries);
  }

  /** Scope balance for one frame: popping the undo frame of a push restores the
      table exactly, provided no binding with a prefix is for the empty URI. */
  lemma PushPopRestoresTable(m: map<string, string>, entries: seq<Prefix>)
    requires NoEmptyUri(entries)
    ensures var inst := Installed(m, entries);
            PopDefined(Bind(m, inst), UndoSlots(inst, |entries|)) &&
            Restore(Bind(m, inst), UndoSlots(inst, |entries|)) == m
  {
    var inst := Installed(m, entries);
    var t := Bind(m, inst);
    var pad := DefaultContext(|entries| - |inst|).prefixes;
    RemoveInstalled(m, entries);
    InstalledNonEmpty(m, entries);
    assert Uris(inst) - {""} == Uris(inst);
    RestoreRemovals(t, inst);
    RestoreAppend(t, Removals(inst), pad);
    RestoreSentinels(m, |pad|);
  }

  /** Whatever happens to the table between a push and its pop, as long as no
      binding is removed, the pop never reaches its `unreachable!()` and every URI
      bound before the push is still bound after the pop. Leaked bindings to the
      empty URI included: their undo slots are skipped. */
  lemma PopAfterPushDefined(m: map<string, string>, entries: seq<Prefix>, after: map<string, string>)
    requires Bind(m, Installed(m, entries)).Keys <= after.Keys
    ensures var undo := UndoSlots(Installed(m, entries), |entries|);
            PopDefined(after, undo) && m.Keys <= Restore(after, undo).Keys
  {
    var inst := Installed(m, entries);
    var pad := DefaultContext(|entries| - |inst|).prefixes;
    RemoveInstalled(m, entries);
    RestoreRemovals(after, inst);
    var popped := after - (Uris(inst) - {""});
    RestoreAppend(after, Removals(inst), pad);
    RestoreSentinels(popped, |pad|);
    assert m.Keys <= popped.Keys;
  }

  /** The leak: a binding of a non-empty prefix to the empty URI is declared by a
      push and survives the matching pop, because its undo slot looks unused. */
  lemma EmptyUriBindingLeaks(m: map<string, string>, p: string)
    requires "" !in m && p != ""
    ensures var inst := Installed(m, [Prefix(p, "")]);
            inst == [Prefix(p, "")] &&
            PopDefined(Bind(m, inst), UndoSlots(inst, 1)) &&
            Restore(Bind(m, inst), UndoSlots(inst, 1)) == m["" := p]
            && m["" := p] != m
  {
    var entries := [Prefix(p, "")];
    assert entries[..0] == [];
    var inst := Installed(m, entries);
    assert inst == entries;
    assert UndoSlots(inst, 1) == [Sentinel];
    assert [Sentinel][..0] == [];
  }
}
