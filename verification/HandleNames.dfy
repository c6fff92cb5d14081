/** The name index of the handle table, over whole runs. */
module HandleNames {
  import opened Forms
  import opened HandleTable

  /** The names of a handle. */
  function NamesOf(names: map<string, nat>, handle: nat): (r: set<string>)
    ensures forall k :: k in r <==> k in names && names[k] == handle
  {
    set k | k in names && names[k] == handle
  }

  /** `handle_namehandle`: a name in use is not given again. */
  function GiveName(names: map<string, nat>, handle: nat, key: string): map<string, nat> {
    if key in names then names else names[key := handle]
  }

  /** `handle_finename`: 0 stands for no handle. */
  function FindName(names: map<string, nat>, key: string): nat {
    if key in names then names[key] else 0
  }

  /** What `handle_retire` does to the name index: as written it stops after one name of the handle,
      whichever the iteration meets first; repaired, it takes them all. */
  ghost predicate NamesAfterRetire(form: Form, names: map<string, nat>, after: map<string, nat>, handle: nat) {
    match form
    case Written =>
      if NamesOf(names, handle) == {} then after == names
      else exists k :: k in NamesOf(names, handle) && after == names - {k}
    case Repaired => after == names - NamesOf(names, handle)
  }

  /** As written, no name of a retired handle is left exactly when it had at most one. Names of other
      handles always stay. */
  lemma WrittenNamesExact(names: map<string, nat>, after: map<string, nat>, handle: nat)
    requires NamesAfterRetire(Written, names, after, handle)
    ensures NamesOf(after, handle) == {} <==> |NamesOf(names, handle)| <= 1
    ensures forall k <- names :: names[k] != handle ==> k in after && after[k] == names[k]
  {
    var of := NamesOf(names, handle);
    if of != {} {
      var k :| k in of && after == names - {k};
      assert NamesOf(after, handle) == of - {k};
      assert |of - {k}| == |of| - 1;
    }
  }

  /** A run: `Give` asks for a name, `Drop` retires a handle and leaves the index `after`. */
  datatype History =
    | Start
    | Give(past: History, handle: nat, key: string)
    | Drop(past: History, handle: nat, after: map<string, nat>)

  function Names(h: History): map<string, nat> {
    match h
    case Start => map[]
    case Give(past, handle, key) => GiveName(Names(past), handle, key)
    case Drop(_, _, after) => after
  }

  /** Every retirement left the index in a way the form allows. */
  ghost predicate Legal(form: Form, h: History) {
    match h
    case Start => true
    case Give(past, _, _) => Legal(form, past)
    case Drop(past, handle, after) => Legal(form, past) && NamesAfterRetire(form, Names(past), after, handle)
  }

  /** Whose a name is, by what was asked for alone: the first to ask for it while it is free, until that
      handle is retired. */
  function Owner(h: History, key: string): Found {
    match h
    case Start => Nowhere
    case Give(past, handle, k) => if k == key && Owner(past, key) == Nowhere then At(handle) else Owner(past, key)
    case Drop(past, handle, _) => if Owner(past, key) == At(handle) then Nowhere else Owner(past, key)
  }

  /** The index knows each name's owner, and nothing else. */
  ghost predicate KnowsOwners(h: History) {
    forall key :: Known(Names(h), key) == Owner(h, key)
  }

  function Known(names: map<string, nat>, key: string): Found {
    if key in names then At(names[key]) else Nowhere
  }

  lemma GiveKnows(h: History)
    requires h.Give? && KnowsOwners(h.past)
    ensures KnowsOwners(h)
  {
    forall key ensures Known(Names(h), key) == Owner(h, key) {
      assert Known(Names(h.past), key) == Owner(h.past, key);
    }
  }

  /** A retirement keeps the index right exactly when it leaves no name of the handle. */
  lemma DropKnows(form: Form, h: History)
    requires h.Drop? && Legal(form, h) && KnowsOwners(h.past)
    ensures KnowsOwners(h) <==> form.Repaired? || |NamesOf(Names(h.past), h.handle)| <= 1
  {
    var names := Names(h.past);
    if form.Written? { WrittenNamesExact(names, h.after, h.handle); }
    forall key ensures Known(names, key) == Owner(h.past, key) {}
    if NamesOf(h.after, h.handle) == {} {
      forall key ensures Known(h.after, key) == Owner(h, key) {
        assert key !in NamesOf(h.after, h.handle);
      }
    } else {
      var key :| key in NamesOf(h.after, h.handle);
      assert Owner(h, key) != At(h.handle);
      assert Known(h.after, key) == At(h.handle);
    }
  }

  /** No retirement of the run met a handle with two names. */
  ghost predicate OneNameEach(h: History) {
    match h
    case Start => true
    case Give(past, _, _) => OneNameEach(past)
    case Drop(past, handle, _) => OneNameEach(past) && |NamesOf(Names(past), handle)| <= 1
  }

  /** The index was right all along. */
  ghost predicate AlwaysKnowsOwners(h: History) {
    KnowsOwners(h) && (!h.Start? ==> AlwaysKnowsOwners(h.past))
  }

  /** Repaired, a name resolves, in every run, to the first handle that asked for it while it was free and
      has not been retired since. As written this holds throughout a run exactly when no retirement in it
      meets a handle with two names. */
  lemma {:induction false} NamesResolveExact(form: Form, h: History)
    requires Legal(form, h)
    ensures AlwaysKnowsOwners(h) <==> form.Repaired? || OneNameEach(h)
  {
    match h
    case Start => assert forall key :: Known(map[], key) == Nowhere;
    case Give(past, _, _) =>
      NamesResolveExact(form, past);
      if AlwaysKnowsOwners(past) { GiveKnows(h); }
    case Drop(past, _, _) =>
      NamesResolveExact(form, past);
      if AlwaysKnowsOwners(past) { DropKnows(form, h); }
  }

  /** It happens: handle 7 takes two names and is retired, and one of them still resolves to it. */
  lemma WrittenLeavesName()
    ensures var h := Drop(Give(Give(Start, 7, "a"), 7, "b"), 7, map["b" := 7]);
      Legal(Written, h) && FindName(Names(h), "b") == 7 && Owner(h, "b") == Nowhere
  {
    var names := map["a" := 7, "b" := 7];
    assert Names(Give(Give(Start, 7, "a"), 7, "b")) == names;
    assert "a" in NamesOf(names, 7) && map["b" := 7] == names - {"a"};
  }

  /** What a caller of `handle_finename` gets: the owner, or 0. */
  lemma FindsOwner(h: History, key: string)
    requires Legal(Repaired, h)
    ensures FindName(Names(h), key) == match Owner(h, key) case At(handle) => handle case Nowhere => 0
  {
    NamesResolveExact(Repaired, h);
    assert Known(Names(h), key) == Owner(h, key);
  }

  /** `h` goes on from `start` without retiring `handle`. */
  predicate Keeps(h: History, start: History, handle: nat) {
    || h == start
    || (h.Give? && Keeps(h.past, start, handle))
    || (h.Drop? && h.handle != handle && Keeps(h.past, start, handle))
  }

  /** In either form, a name once given resolves to its handle until that handle is retired. */
  lemma {:induction false} NameStays(form: Form, h: History, start: History, key: string)
    requires Legal(form, h) && key in Names(start) && Keeps(h, start, Names(start)[key])
    ensures key in Names(h) && FindName(Names(h), key) == FindName(Names(start), key)
  {
    if h != start {
      NameStays(form, h.past, start, key);
      if h.Drop? && form.Written? { WrittenNamesExact(Names(h.past), h.after, h.handle); }
    }
  }
}
