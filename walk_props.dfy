/** Properties of the tree walk (`process_value`): what a mapping, a sequence
    and a leaf become, which error a failed scan reports, that documents
    without directives come back unchanged, that resolution is transitive and
    that every directive, at any depth, is resolved against the one base
    directory of the root file. */
module WalkProps {
  import opened Common
  import opened Errors
  import opened Lib
  import opened YamlValue
  import opened Io
  import opened Processor

  /** What a mapping value is replaced by before the recursive walk: itself,
      or the resolution of the directive it holds. */
  function Replacement(config: Config, resolve: Resolutions, x: Value): Result<Value> {
    match ExtractIncludeDirective(config, x)
    case None => Ok(x)
    case Some(p) => resolve(p)
  }

  predicate HasKey(es: seq<Entry>, k: Value) {
    exists i :: 0 <= i < |es| && es[i].key == k
  }

  /** Same length, and the same key at every position. */
  predicate SameKeys(a: seq<Entry>, b: seq<Entry>) {
    |a| == |b| && forall i :: 0 <= i < |a| ==> a[i].key == b[i].key
  }

  // ---------------------------------------------------------------------------
  // Scan

  /** The scan succeeds exactly when every directive of the mapping resolves;
      every update it produces is keyed by a key of the mapping. */
  lemma {:induction false} ScanOk(config: Config, resolve: Resolutions, es: seq<Entry>)
    ensures Scan(config, resolve, es).Ok? <==>
      forall i :: 0 <= i < |es| ==> Replacement(config, resolve, es[i].value).Ok?
    ensures Scan(config, resolve, es).Ok? ==>
      forall j :: 0 <= j < |Scan(config, resolve, es).value| ==>
        HasKey(es, Scan(config, resolve, es).value[j].key)
  {
    if es != [] {
      var pre := es[..|es| - 1];
      ScanOk(config, resolve, pre);
      assert forall i :: 0 <= i < |pre| ==> pre[i] == es[i];
      if Scan(config, resolve, es).Ok? {
        var updates := Scan(config, resolve, es).value;
        forall j | 0 <= j < |updates| ensures HasKey(es, updates[j].key) {
          if j < |Scan(config, resolve, pre).value| {
            var i :| 0 <= i < |pre| && pre[i].key == updates[j].key;
            assert es[i].key == updates[j].key;
          } else {
            assert es[|es| - 1].key == updates[j].key;
          }
        }
      }
    }
  }

  /** A failed scan reports the error of the first directive that fails to
      resolve; every directive before it resolved. */
  lemma {:induction false} ScanFirstErr(config: Config, resolve: Resolutions, es: seq<Entry>)
    requires Scan(config, resolve, es).Err?
    ensures exists i ::
      && 0 <= i < |es|
      && ExtractIncludeDirective(config, es[i].value).Some?
      && Replacement(config, resolve, es[i].value) == Err(Scan(config, resolve, es).error)
      && forall j :: 0 <= j < i ==> Replacement(config, resolve, es[j].value).Ok?
  {
    var pre := es[..|es| - 1];
    assert forall i :: 0 <= i < |pre| ==> pre[i] == es[i];
    if Scan(config, resolve, pre).Err? {
      ScanFirstErr(config, resolve, pre);
      var i :|
        && 0 <= i < |pre|
        && ExtractIncludeDirective(config, pre[i].value).Some?
        && Replacement(config, resolve, pre[i].value) == Err(Scan(config, resolve, pre).error)
        && forall j :: 0 <= j < i ==> Replacement(config, resolve, pre[j].value).Ok?;
      assert Replacement(config, resolve, es[i].value) == Err(Scan(config, resolve, es).error);
    } else {
      ScanOk(config, resolve, pre);
      var i := |es| - 1;
      assert Replacement(config, resolve, es[i].value) == Err(Scan(config, resolve, es).error);
    }
  }

  /** A mapping without directives yields no updates. */
  lemma {:induction false} ScanNoDirectives(config: Config, resolve: Resolutions, es: seq<Entry>)
    requires forall i :: 0 <= i < |es| ==> ExtractIncludeDirective(config, es[i].value).None?
    ensures Scan(config, resolve, es) == Ok([])
  {
    if es != [] {
      var pre := es[..|es| - 1];
      assert forall i :: 0 <= i < |pre| ==> pre[i] == es[i];
      ScanNoDirectives(config, resolve, pre);
    }
  }

  // ---------------------------------------------------------------------------
  // Apply

  lemma {:induction false} IndexOfAppend(xs: seq<Entry>, x: Entry, k: Value)
    requires IndexOf(xs, k) < |xs|
    ensures IndexOf(xs + [x], k) == IndexOf(xs, k)
  {
    if xs[0].key != k {
      assert (xs + [x])[1..] == xs[1..] + [x];
      IndexOfAppend(xs[1..], x, k);
    }
  }

  lemma {:induction false} IndexOfAbsentAppend(xs: seq<Entry>, last: Entry)
    requires forall i :: 0 <= i < |xs| ==> xs[i].key != last.key
    ensures IndexOf(xs + [last], last.key) == |xs|
  {
    if xs != [] {
      assert (xs + [last])[1..] == xs[1..] + [last];
      IndexOfAbsentAppend(xs[1..], last);
    }
  }

  lemma HasKeyIndexOf(xs: seq<Entry>, k: Value)
    requires HasKey(xs, k)
    ensures IndexOf(xs, k) < |xs|
  {
    var w :| 0 <= w < |xs| && xs[w].key == k;
    assert IndexOf(xs, k) <= w;
  }

  /** Overwriting a position before an appended element commutes with the append. */
  lemma UpdateBeforeAppend(xs: seq<Entry>, x: Entry, i: nat, e: Entry)
    requires i < |xs|
    ensures (xs + [x])[i := e] == xs[i := e] + [x]
  {
  }

  /** Overwriting an entry with one of the same key keeps every key. */
  lemma UpdateSameKey(xs: seq<Entry>, i: nat, e: Entry)
    requires i < |xs| && e.key == xs[i].key
    ensures SameKeys(xs[i := e], xs)
  {
  }

  /** Inserting at a key the entries already have keeps every key in place and
      does not touch an entry appended after them. */
  lemma InsertExisting(xs: seq<Entry>, x: Entry, u: Entry)
    requires IndexOf(xs, u.key) < |xs|
    ensures Insert(xs + [x], u) == Insert(xs, u) + [x]
    ensures SameKeys(Insert(xs, u), xs)
  {
    var i := IndexOf(xs, u.key);
    IndexOfAppend(xs, x, u.key);
    var e := Entry(xs[i].key, u.value);
    assert (xs + [x])[i] == xs[i];
    UpdateBeforeAppend(xs, x, i, e);
    UpdateSameKey(xs, i, e);
  }

  /** Inserting a key that none of `xs` has, at the entry appended with that key,
      replaces that entry's value. */
  lemma InsertAtLast(xs: seq<Entry>, last: Entry, v: Value)
    requires forall i :: 0 <= i < |xs| ==> xs[i].key != last.key
    ensures Insert(xs + [last], Entry(last.key, v)) == xs + [Entry(last.key, v)]
  {
    IndexOfAbsentAppend(xs, last);
    var ys := xs + [last];
    assert ys[|xs| := Entry(last.key, v)] == xs + [Entry(last.key, v)];
  }

  /** Inserting updates whose keys the mapping already has keeps every key in
      place, and does not touch an entry appended after them. */
  lemma {:induction false} ApplyExisting(xs: seq<Entry>, x: Entry, updates: seq<Entry>)
    requires forall j :: 0 <= j < |updates| ==> HasKey(xs, updates[j].key)
    ensures Apply(xs + [x], updates) == Apply(xs, updates) + [x]
    ensures SameKeys(Apply(xs, updates), xs)
    decreases |updates|
  {
    if updates != [] {
      var pre := updates[..|updates| - 1];
      var u := updates[|updates| - 1];
      ApplyExisting(xs, x, pre);
      var a := Apply(xs, pre);
      var w :| 0 <= w < |xs| && xs[w].key == u.key;
      assert a[w].key == u.key;
      HasKeyIndexOf(a, u.key);
      InsertExisting(a, x, u);
    }
  }

  /** `a` is `es` with every value replaced: same keys, and each value the
      replacement of the value at its position. */
  predicate ReplacedBy(config: Config, resolve: Resolutions, es: seq<Entry>, a: seq<Entry>) {
    SameKeys(a, es) &&
    forall i :: 0 <= i < |es| ==> Replacement(config, resolve, es[i].value) == Ok(a[i].value)
  }

  lemma ReplacedByAppend(config: Config, resolve: Resolutions, pre: seq<Entry>, a0: seq<Entry>, last: Entry, w: Value)
    requires ReplacedBy(config, resolve, pre, a0)
    requires Replacement(config, resolve, last.value) == Ok(w)
    ensures ReplacedBy(config, resolve, pre + [last], a0 + [Entry(last.key, w)])
  {
    var es := pre + [last];
    var a := a0 + [Entry(last.key, w)];
    assert forall i :: 0 <= i < |pre| ==> es[i] == pre[i] && a[i] == a0[i];
  }

  /** Appending an entry the scan leaves alone. */
  lemma ApplyScanKeep(config: Config, resolve: Resolutions, pre: seq<Entry>, last: Entry, u0: seq<Entry>)
    requires ReplacedBy(config, resolve, pre, Apply(pre, u0))
    requires forall j :: 0 <= j < |u0| ==> HasKey(pre, u0[j].key)
    requires Replacement(config, resolve, last.value) == Ok(last.value)
    ensures ReplacedBy(config, resolve, pre + [last], Apply(pre + [last], u0))
  {
    ApplyExisting(pre, last, u0);
    assert last == Entry(last.key, last.value);
    ReplacedByAppend(config, resolve, pre, Apply(pre, u0), last, last.value);
  }

  /** Appending a directive entry, with a key no earlier entry has, whose
      resolution the scan adds as the last update. */
  lemma ApplyScanResolved(config: Config, resolve: Resolutions, pre: seq<Entry>, last: Entry, u0: seq<Entry>, resolved: Value)
    requires ReplacedBy(config, resolve, pre, Apply(pre, u0))
    requires forall j :: 0 <= j < |u0| ==> HasKey(pre, u0[j].key)
    requires forall i :: 0 <= i < |pre| ==> pre[i].key != last.key
    requires Replacement(config, resolve, last.value) == Ok(resolved)
    ensures ReplacedBy(config, resolve, pre + [last], Apply(pre + [last], u0 + [Entry(last.key, resolved)]))
  {
    var us := u0 + [Entry(last.key, resolved)];
    assert us[..|us| - 1] == u0;
    ApplyExisting(pre, last, u0);
    var a0 := Apply(pre, u0);
    InsertAtLast(a0, last, resolved);
    ReplacedByAppend(config, resolve, pre, a0, last, resolved);
  }

  /** After the scan, the apply step leaves every key in place, every directive
      entry holding its resolution and every other entry untouched. Needs unique
      keys, which every parsed mapping has. */
  lemma {:induction false} ApplyScan(config: Config, resolve: Resolutions, es: seq<Entry>)
    requires UniqueKeys(es) && Scan(config, resolve, es).Ok?
    ensures ReplacedBy(config, resolve, es, Apply(es, Scan(config, resolve, es).value))
  {
    if es != [] {
      var pre := es[..|es| - 1];
      var last := es[|es| - 1];
      assert es == pre + [last];
      assert forall i :: 0 <= i < |pre| ==> pre[i].key != last.key;
      ApplyScan(config, resolve, pre);
      ScanOk(config, resolve, pre);
      var u0 := Scan(config, resolve, pre).value;
      if ExtractIncludeDirective(config, last.value).None? {
        assert Scan(config, resolve, es).value == u0;
        ApplyScanKeep(config, resolve, pre, last, u0);
      } else {
        var resolved := Replacement(config, resolve, last.value).value;
        assert Scan(config, resolve, es).value == u0 + [Entry(last.key, resolved)];
        ApplyScanResolved(config, resolve, pre, last, u0, resolved);
      }
    }
  }

  // ---------------------------------------------------------------------------
  // Walking the children

  /** The children of a mapping walk to completion exactly when each of them
      does; the keys stay in place and each value is its own walk. */
  lemma {:induction false} WalkEntriesDone(config: Config, resolve: Resolutions, es: seq<Entry>, fuel: nat)
    ensures WalkEntries(config, resolve, es, fuel).Done? <==>
      forall i :: 0 <= i < |es| ==> Walk(config, resolve, es[i].value, fuel).Done?
    ensures WalkEntries(config, resolve, es, fuel).Done? ==>
      SameKeys(WalkEntries(config, resolve, es, fuel).value, es) &&
      forall i :: 0 <= i < |es| ==>
        Walk(config, resolve, es[i].value, fuel) == Done(WalkEntries(config, resolve, es, fuel).value[i].value)
  {
    if es != [] {
      var pre := es[..|es| - 1];
      WalkEntriesDone(config, resolve, pre, fuel);
      assert forall i :: 0 <= i < |pre| ==> pre[i] == es[i];
    }
  }

  /** The elements of a sequence walk to completion exactly when each of them
      does; the length is kept and each element is its own walk. */
  lemma {:induction false} WalkItemsDone(config: Config, resolve: Resolutions, xs: seq<Value>, fuel: nat)
    ensures WalkItems(config, resolve, xs, fuel).Done? <==>
      forall i :: 0 <= i < |xs| ==> Walk(config, resolve, xs[i], fuel).Done?
    ensures WalkItems(config, resolve, xs, fuel).Done? ==>
      |WalkItems(config, resolve, xs, fuel).value| == |xs| &&
      forall i :: 0 <= i < |xs| ==>
        Walk(config, resolve, xs[i], fuel) == Done(WalkItems(config, resolve, xs, fuel).value[i])
  {
    if xs != [] {
      var pre := xs[..|xs| - 1];
      WalkItemsDone(config, resolve, pre, fuel);
      assert forall i :: 0 <= i < |pre| ==> pre[i] == xs[i];
    }
  }

  /** `b` stops the way `a` does: the same error, or both out of fuel. */
  predicate SameStop<A, B>(a: Outcome<A>, b: Outcome<B>) {
    (a.Failed? && b == Failed(a.error)) || (a.OutOfFuel? && b.OutOfFuel?)
  }

  /** A mapping's children that do not all walk to completion stop the way
      the first child that does not complete stops; every earlier child
      completed. */
  lemma {:induction false} WalkEntriesFirstStop(config: Config, resolve: Resolutions, es: seq<Entry>, fuel: nat)
    requires !WalkEntries(config, resolve, es, fuel).Done?
    ensures exists i ::
      && 0 <= i < |es|
      && SameStop(WalkEntries(config, resolve, es, fuel), Walk(config, resolve, es[i].value, fuel))
      && forall j :: 0 <= j < i ==> Walk(config, resolve, es[j].value, fuel).Done?
  {
    var pre := es[..|es| - 1];
    assert forall i :: 0 <= i < |pre| ==> pre[i] == es[i];
    if !WalkEntries(config, resolve, pre, fuel).Done? {
      WalkEntriesFirstStop(config, resolve, pre, fuel);
      var i :|
        && 0 <= i < |pre|
        && SameStop(WalkEntries(config, resolve, pre, fuel), Walk(config, resolve, pre[i].value, fuel))
        && forall j :: 0 <= j < i ==> Walk(config, resolve, pre[j].value, fuel).Done?;
      assert SameStop(WalkEntries(config, resolve, es, fuel), Walk(config, resolve, es[i].value, fuel));
    } else {
      WalkEntriesDone(config, resolve, pre, fuel);
      var i := |es| - 1;
      assert SameStop(WalkEntries(config, resolve, es, fuel), Walk(config, resolve, es[i].value, fuel));
    }
  }

  /** A sequence's elements that do not all walk to completion stop the way
      the first element that does not complete stops; every earlier element
      completed. */
  lemma {:induction false} WalkItemsFirstStop(config: Config, resolve: Resolutions, xs: seq<Value>, fuel: nat)
    requires !WalkItems(config, resolve, xs, fuel).Done?
    ensures exists i ::
      && 0 <= i < |xs|
      && SameStop(WalkItems(config, resolve, xs, fuel), Walk(config, resolve, xs[i], fuel))
      && forall j :: 0 <= j < i ==> Walk(config, resolve, xs[j], fuel).Done?
  {
    var pre := xs[..|xs| - 1];
    assert forall i :: 0 <= i < |pre| ==> pre[i] == xs[i];
    if !WalkItems(config, resolve, pre, fuel).Done? {
      WalkItemsFirstStop(config, resolve, pre, fuel);
      var i :|
        && 0 <= i < |pre|
        && SameStop(WalkItems(config, resolve, pre, fuel), Walk(config, resolve, pre[i], fuel))
        && forall j :: 0 <= j < i ==> Walk(config, resolve, pre[j], fuel).Done?;
      assert SameStop(WalkItems(config, resolve, xs, fuel), Walk(config, resolve, xs[i], fuel));
    } else {
      WalkItemsDone(config, resolve, pre, fuel);
      var i := |xs| - 1;
      assert SameStop(WalkItems(config, resolve, xs, fuel), Walk(config, resolve, xs[i], fuel));
    }
  }

  // ---------------------------------------------------------------------------
  // Fuel

  /** A walk that finishes (completed or failed) within some fuel gives the
      same result with any larger fuel: `OutOfFuel` is the only outcome the
      fuel bound can introduce. */
  lemma {:induction false} WalkMonotone(config: Config, resolve: Resolutions, v: Value, fuel: nat, more: nat)
    requires fuel <= more && !Walk(config, resolve, v, fuel).OutOfFuel?
    ensures Walk(config, resolve, v, more) == Walk(config, resolve, v, fuel)
    decreases fuel, 0
  {
    match v
    case Mapping(es) =>
      var s := Scan(config, resolve, es);
      if s.Ok? {
        WalkEntriesMonotone(config, resolve, Apply(es, s.value), fuel - 1, more - 1);
      }
    case Sequence(xs) =>
      WalkItemsMonotone(config, resolve, xs, fuel - 1, more - 1);
    case _ =>
  }

  lemma {:induction false} WalkEntriesMonotone(config: Config, resolve: Resolutions, es: seq<Entry>, fuel: nat, more: nat)
    requires fuel <= more && !WalkEntries(config, resolve, es, fuel).OutOfFuel?
    ensures WalkEntries(config, resolve, es, more) == WalkEntries(config, resolve, es, fuel)
    decreases fuel, |es| + 1
  {
    if es != [] {
      var pre := es[..|es| - 1];
      WalkEntriesMonotone(config, resolve, pre, fuel, more);
      if WalkEntries(config, resolve, pre, fuel).Done? {
        WalkMonotone(config, resolve, es[|es| - 1].value, fuel, more);
      }
    }
  }

  lemma {:induction false} WalkItemsMonotone(config: Config, resolve: Resolutions, xs: seq<Value>, fuel: nat, more: nat)
    requires fuel <= more && !WalkItems(config, resolve, xs, fuel).OutOfFuel?
    ensures WalkItems(config, resolve, xs, more) == WalkItems(config, resolve, xs, fuel)
    decreases fuel, |xs| + 1
  {
    if xs != [] {
      var pre := xs[..|xs| - 1];
      WalkItemsMonotone(config, resolve, pre, fuel, more);
      if WalkItems(config, resolve, pre, fuel).Done? {
        WalkMonotone(config, resolve, xs[|xs| - 1], fuel, more);
      }
    }
  }

  // ---------------------------------------------------------------------------
  // One step of the walk

  /** A mapping keeps its keys, in order, through the walk (unique keys or not). */
  lemma WalkKeepsKeys(config: Config, resolve: Resolutions, es: seq<Entry>, fuel: nat)
    requires Walk(config, resolve, Mapping(es), fuel).Done?
    ensures Walk(config, resolve, Mapping(es), fuel).value.Mapping?
    ensures SameKeys(Walk(config, resolve, Mapping(es), fuel).value.entries, es)
  {
    ScanOk(config, resolve, es);
    var updates := Scan(config, resolve, es).value;
    var e := Entry(Null, Null);
    ApplyExisting(es, e, updates);
    WalkEntriesDone(config, resolve, Apply(es, updates), fuel - 1);
  }

  /** One step of the walk on a mapping with unique keys: each value is
      replaced (by itself, or by its directive's resolution) and then walked. */
  lemma WalkMappingStep(config: Config, resolve: Resolutions, es: seq<Entry>, fuel: nat)
    requires UniqueKeys(es)
    requires Walk(config, resolve, Mapping(es), fuel).Done?
    ensures fuel > 0
    ensures Walk(config, resolve, Mapping(es), fuel).value.Mapping?
    ensures SameKeys(Walk(config, resolve, Mapping(es), fuel).value.entries, es)
    ensures forall i :: 0 <= i < |es| ==>
      Replacement(config, resolve, es[i].value).Ok? &&
      Walk(config, resolve, Replacement(config, resolve, es[i].value).value, fuel - 1) ==
        Done(Walk(config, resolve, Mapping(es), fuel).value.entries[i].value)
  {
    var updates := Scan(config, resolve, es).value;
    ApplyScan(config, resolve, es);
    WalkEntriesDone(config, resolve, Apply(es, updates), fuel - 1);
  }

  /** The mapping step at one position. */
  lemma WalkMappingAt(config: Config, resolve: Resolutions, es: seq<Entry>, fuel: nat, i: nat)
    requires UniqueKeys(es) && i < |es|
    requires Walk(config, resolve, Mapping(es), fuel).Done?
    ensures fuel > 0
    ensures Walk(config, resolve, Mapping(es), fuel).value.Mapping?
    ensures |Walk(config, resolve, Mapping(es), fuel).value.entries| == |es|
    ensures Replacement(config, resolve, es[i].value).Ok?
    ensures Walk(config, resolve, Replacement(config, resolve, es[i].value).value, fuel - 1) ==
      Done(Walk(config, resolve, Mapping(es), fuel).value.entries[i].value)
  {
    WalkMappingStep(config, resolve, es, fuel);
  }

  /** A walked mapping: same keys in the same order; an entry that held a
      directive now holds the directive's resolved value, itself walked; every
      other entry holds its own value walked, never overwritten. */
  lemma WalkMapping(config: Config, resolve: Resolutions, es: seq<Entry>, fuel: nat)
    requires UniqueKeys(es)
    requires Walk(config, resolve, Mapping(es), fuel).Done?
    ensures fuel > 0
    ensures Walk(config, resolve, Mapping(es), fuel).value.Mapping?
    ensures SameKeys(Walk(config, resolve, Mapping(es), fuel).value.entries, es)
    ensures forall i :: 0 <= i < |es| && ExtractIncludeDirective(config, es[i].value).None? ==>
      Walk(config, resolve, es[i].value, fuel - 1) ==
        Done(Walk(config, resolve, Mapping(es), fuel).value.entries[i].value)
    ensures forall i :: 0 <= i < |es| && ExtractIncludeDirective(config, es[i].value).Some? ==>
      var resolved := resolve(ExtractIncludeDirective(config, es[i].value).value);
      resolved.Ok? &&
      Walk(config, resolve, resolved.value, fuel - 1) ==
        Done(Walk(config, resolve, Mapping(es), fuel).value.entries[i].value)
  {
    WalkMappingStep(config, resolve, es, fuel);
  }

  /** If a directive of a mapping fails to resolve, the whole walk fails with
      the error of the first such directive, before any child is walked. */
  lemma WalkMappingFirstFailure(config: Config, resolve: Resolutions, es: seq<Entry>, fuel: nat, i: nat)
    requires fuel > 0 && i < |es|
    requires Replacement(config, resolve, es[i].value).Err?
    requires forall j :: 0 <= j < i ==> Replacement(config, resolve, es[j].value).Ok?
    ensures Walk(config, resolve, Mapping(es), fuel) ==
      Failed(Replacement(config, resolve, es[i].value).error)
  {
    var pre := es[..i];
    assert forall j :: 0 <= j < |pre| ==> pre[j] == es[j];
    ScanOk(config, resolve, pre);
    assert es[..i + 1][..i] == pre;
    ScanPrefixErr(config, resolve, es, i + 1);
  }

  /** A walked sequence keeps its length; each element is walked, in order. */
  lemma WalkSequence(config: Config, resolve: Resolutions, xs: seq<Value>, fuel: nat)
    requires Walk(config, resolve, Sequence(xs), fuel).Done?
    ensures fuel > 0
    ensures Walk(config, resolve, Sequence(xs), fuel).value.Sequence?
    ensures |Walk(config, resolve, Sequence(xs), fuel).value.items| == |xs|
    ensures forall i :: 0 <= i < |xs| ==>
      Walk(config, resolve, xs[i], fuel - 1) == Done(Walk(config, resolve, Sequence(xs), fuel).value.items[i])
  {
    WalkItemsDone(config, resolve, xs, fuel - 1);
  }

  /** Scalars and tagged nodes are leaves: returned untouched, so a directive
      that is the document root is not resolved. */
  lemma WalkLeaf(config: Config, resolve: Resolutions, v: Value, fuel: nat)
    requires !v.Mapping? && !v.Sequence?
    ensures Walk(config, resolve, v, fuel) == Done(v)
  {
  }

  /** A directive that is a sequence element is not resolved either. */
  lemma DirectiveInSequenceKept(config: Config, resolve: Resolutions, p: string, fuel: nat)
    requires fuel > 0
    ensures var d := Tagged(config.includeTag, String(p));
      ExtractIncludeDirective(config, d) == Some(p) &&
      Walk(config, resolve, Sequence([d]), fuel) == Done(Sequence([d]))
  {
    var d := Tagged(config.includeTag, String(p));
    assert [d][..0] == [];
    assert WalkItems(config, resolve, [], fuel - 1) == Done([]);
    assert Walk(config, resolve, d, fuel - 1) == Done(d);
    assert WalkItems(config, resolve, [d], fuel - 1) == Done([] + [d]);
    assert [] + [d] == [d];
  }

  // ---------------------------------------------------------------------------
  // Whole-tree properties

  /** Every mapping value the walk reaches is free of directives. Directives
      that are sequence elements, the root, keys or inside a tagged node are
      not reached by the walk and are allowed. */
  predicate Settled(config: Config, v: Value) {
    match v
    case Sequence(xs) => forall i :: 0 <= i < |xs| ==> Settled(config, xs[i])
    case Mapping(es) => forall i :: 0 <= i < |es| ==>
      ExtractIncludeDirective(config, es[i].value).None? && Settled(config, es[i].value)
    case _ => true
  }

  function MaxOf(s: seq<nat>): (m: nat)
    ensures forall i :: 0 <= i < |s| ==> s[i] <= m
  {
    if s == [] then 0
    else var rest := MaxOf(s[1..]); if s[0] < rest then rest else s[0]
  }

  /** Nesting depth of mappings and sequences (the fuel a walk of `v` needs). */
  function Depth(v: Value): nat {
    match v
    case Sequence(xs) => 1 + MaxOf(seq(|xs|, i requires 0 <= i < |xs| => Depth(xs[i])))
    case Mapping(es) => 1 + MaxOf(seq(|es|, i requires 0 <= i < |es| => Depth(es[i].value)))
    case _ => 0
  }

  /** A document without directives comes back unchanged. */
  lemma {:induction false} WalkSettledIdentity(config: Config, resolve: Resolutions, v: Value, fuel: nat)
    requires Settled(config, v) && fuel >= Depth(v)
    ensures Walk(config, resolve, v, fuel) == Done(v)
    decreases v
  {
    match v
    case Mapping(es) =>
      var ds := seq(|es|, i requires 0 <= i < |es| => Depth(es[i].value));
      forall i | 0 <= i < |es|
        ensures Walk(config, resolve, es[i].value, fuel - 1) == Done(es[i].value)
      {
        assert ds[i] == Depth(es[i].value);
        WalkSettledIdentity(config, resolve, es[i].value, fuel - 1);
      }
      ScanNoDirectives(config, resolve, es);
      WalkEntriesDone(config, resolve, es, fuel - 1);
      var ws := WalkEntries(config, resolve, es, fuel - 1).value;
      assert forall i :: 0 <= i < |es| ==> ws[i] == es[i];
      assert ws == es;
    case Sequence(xs) =>
      var ds := seq(|xs|, i requires 0 <= i < |xs| => Depth(xs[i]));
      forall i | 0 <= i < |xs|
        ensures Walk(config, resolve, xs[i], fuel - 1) == Done(xs[i])
      {
        assert ds[i] == Depth(xs[i]);
        WalkSettledIdentity(config, resolve, xs[i], fuel - 1);
      }
      WalkItemsDone(config, resolve, xs, fuel - 1);
      var ys := WalkItems(config, resolve, xs, fuel - 1).value;
      assert ys == xs;
    case _ =>
  }

  /** Every resolution is a well-formed document whose root is not itself a
      directive. */
  ghost predicate ResolutionsSettle(config: Config, resolve: Resolutions) {
    forall p :: resolve(p).Ok? ==>
      WellFormed(resolve(p).value) &&
      ExtractIncludeDirective(config, resolve(p).value).None?
  }

  /** Resolution is transitive: when no back end returns a bare directive, a
      completed walk leaves no directive anywhere the walk reaches, however
      deeply included content nests further includes. */
  lemma {:induction false} WalkSettles(config: Config, resolve: Resolutions, v: Value, fuel: nat)
    requires ResolutionsSettle(config, resolve) && WellFormed(v)
    requires Walk(config, resolve, v, fuel).Done?
    ensures Settled(config, Walk(config, resolve, v, fuel).value)
    ensures ExtractIncludeDirective(config, v).None? ==>
      ExtractIncludeDirective(config, Walk(config, resolve, v, fuel).value).None?
    decreases fuel, 2
  {
    match v
    case Mapping(es) => WalkSettlesMapping(config, resolve, es, fuel);
    case Sequence(xs) => WalkSettlesSequence(config, resolve, xs, fuel);
    case _ =>
  }

  lemma {:induction false} WalkSettlesMapping(config: Config, resolve: Resolutions, es: seq<Entry>, fuel: nat)
    requires ResolutionsSettle(config, resolve) && WellFormed(Mapping(es))
    requires Walk(config, resolve, Mapping(es), fuel).Done?
    ensures Walk(config, resolve, Mapping(es), fuel).value.Mapping?
    ensures Settled(config, Walk(config, resolve, Mapping(es), fuel).value)
    decreases fuel, 1
  {
    WalkKeepsKeys(config, resolve, es, fuel);
    var r := Walk(config, resolve, Mapping(es), fuel).value;
    forall i | 0 <= i < |es|
      ensures ExtractIncludeDirective(config, r.entries[i].value).None? && Settled(config, r.entries[i].value)
    {
      WalkSettlesEntry(config, resolve, es, fuel, i);
    }
  }

  lemma {:induction false} WalkSettlesEntry(config: Config, resolve: Resolutions, es: seq<Entry>, fuel: nat, i: nat)
    requires ResolutionsSettle(config, resolve) && WellFormed(Mapping(es)) && i < |es|
    requires Walk(config, resolve, Mapping(es), fuel).Done?
    ensures Walk(config, resolve, Mapping(es), fuel).value.Mapping?
    ensures |Walk(config, resolve, Mapping(es), fuel).value.entries| == |es|
    ensures var w := Walk(config, resolve, Mapping(es), fuel).value.entries[i].value;
      ExtractIncludeDirective(config, w).None? && Settled(config, w)
    decreases fuel, 0
  {
    WalkMappingAt(config, resolve, es, fuel, i);
    var w := Walk(config, resolve, Mapping(es), fuel).value.entries[i].value;
    WalkSettlesChild(config, resolve, es[i].value, fuel - 1, w);
  }

  lemma {:induction false} WalkSettlesSequence(config: Config, resolve: Resolutions, xs: seq<Value>, fuel: nat)
    requires ResolutionsSettle(config, resolve) && WellFormed(Sequence(xs))
    requires Walk(config, resolve, Sequence(xs), fuel).Done?
    ensures Walk(config, resolve, Sequence(xs), fuel).value.Sequence?
    ensures Settled(config, Walk(config, resolve, Sequence(xs), fuel).value)
    decreases fuel, 1
  {
    WalkSequence(config, resolve, xs, fuel);
    var r := Walk(config, resolve, Sequence(xs), fuel).value;
    forall i | 0 <= i < |xs| ensures Settled(config, r.items[i]) {
      WalkSettles(config, resolve, xs[i], fuel - 1);
    }
  }

  /** A mapping value of a well-formed tree, replaced and walked, is settled and not a directive. */
  lemma {:induction false} WalkSettlesChild(config: Config, resolve: Resolutions, x: Value, fuel: nat, w: Value)
    requires ResolutionsSettle(config, resolve) && WellFormed(x)
    requires Replacement(config, resolve, x).Ok?
    requires Walk(config, resolve, Replacement(config, resolve, x).value, fuel) == Done(w)
    ensures ExtractIncludeDirective(config, w).None? && Settled(config, w)
    decreases fuel, 3
  {
    var y := Replacement(config, resolve, x).value;
    assert WellFormed(y) && ExtractIncludeDirective(config, y).None?;
    WalkSettles(config, resolve, y, fuel);
  }

  /** Without that condition transitivity fails: a back end whose result is a
      bare directive leaves that directive in place. */
  lemma BareDirectiveResultStays(config: Config, resolve: Resolutions, key: Value, p: string, d: Value, fuel: nat)
    requires fuel > 0
    requires ExtractIncludeDirective(config, d).Some? && resolve(p) == Ok(d)
    ensures var doc := Mapping([Entry(key, Tagged(config.includeTag, String(p)))]);
      Walk(config, resolve, doc, fuel) == Done(Mapping([Entry(key, d)])) &&
      !Settled(config, Mapping([Entry(key, d)]))
  {
    var es := [Entry(key, Tagged(config.includeTag, String(p)))];
    assert es[..0] == [];
    assert Scan(config, resolve, []) == Ok([]);
    assert ExtractIncludeDirective(config, es[0].value) == Some(p);
    assert [] + [Entry(key, d)] == [Entry(key, d)];
    assert Scan(config, resolve, es) == Ok([] + [Entry(key, d)]);
    var updates := [Entry(key, d)];
    assert updates[..0] == [];
    assert IndexOf(es, key) == 0;
    assert Apply(es, updates) == [Entry(key, d)];
    var applied := [Entry(key, d)];
    assert applied[..0] == [];
    assert WalkEntries(config, resolve, applied, fuel - 1) == Done(applied);
  }

  /** Transitivity: a directive `q` inside the content included by a
      directive `p` is resolved by the same resolutions as `p`. */
  lemma TransitiveInclude(
    config: Config, resolve: Resolutions, es: seq<Entry>, fuel: nat,
    i: nat, inner: seq<Entry>, j: nat)
    requires UniqueKeys(es) && i < |es|
    requires ExtractIncludeDirective(config, es[i].value).Some?
    requires resolve(ExtractIncludeDirective(config, es[i].value).value) == Ok(Mapping(inner))
    requires UniqueKeys(inner) && j < |inner|
    requires ExtractIncludeDirective(config, inner[j].value).Some?
    requires Walk(config, resolve, Mapping(es), fuel).Done?
    ensures fuel >= 2
    ensures Walk(config, resolve, Mapping(es), fuel).value.Mapping?
    ensures |Walk(config, resolve, Mapping(es), fuel).value.entries| == |es|
    ensures var q := ExtractIncludeDirective(config, inner[j].value).value;
      var ri := Walk(config, resolve, Mapping(es), fuel).value.entries[i].value;
      resolve(q).Ok? &&
      ri.Mapping? && |ri.entries| == |inner| &&
      Walk(config, resolve, resolve(q).value, fuel - 2) == Done(ri.entries[j].value)
  {
    WalkMappingAt(config, resolve, es, fuel, i);
    var ri := Walk(config, resolve, Mapping(es), fuel).value.entries[i].value;
    assert Replacement(config, resolve, es[i].value) == Ok(Mapping(inner));
    WalkMappingAt(config, resolve, inner, fuel - 1, j);
  }

  // ---------------------------------------------------------------------------
  // The source's resolutions

  /** With the source's resolutions: the directive `q` inside the content
      that `p` includes is resolved against the root's base directory, not
      against the directory of the file `p` names. */
  lemma TransitiveIncludeAtRootBase(
    config: Config, env: Env, baseDir: Path, es: seq<Entry>, fuel: nat,
    i: nat, inner: seq<Entry>, j: nat)
    requires UniqueKeys(es) && i < |es|
    requires ExtractIncludeDirective(config, es[i].value).Some?
    requires IncludeResult(env, ExtractIncludeDirective(config, es[i].value).value, baseDir) == Ok(Mapping(inner))
    requires UniqueKeys(inner) && j < |inner|
    requires ExtractIncludeDirective(config, inner[j].value).Some?
    requires Walk(config, ResolveAt(env, baseDir), Mapping(es), fuel).Done?
    ensures fuel >= 2
    ensures Walk(config, ResolveAt(env, baseDir), Mapping(es), fuel).value.Mapping?
    ensures |Walk(config, ResolveAt(env, baseDir), Mapping(es), fuel).value.entries| == |es|
    ensures var q := ExtractIncludeDirective(config, inner[j].value).value;
      var ri := Walk(config, ResolveAt(env, baseDir), Mapping(es), fuel).value.entries[i].value;
      IncludeResult(env, q, baseDir).Ok? &&
      ri.Mapping? && |ri.entries| == |inner| &&
      Walk(config, ResolveAt(env, baseDir), IncludeResult(env, q, baseDir).value, fuel - 2) == Done(ri.entries[j].value)
  {
    var resolve := ResolveAt(env, baseDir);
    assert resolve(ExtractIncludeDirective(config, es[i].value).value) == Ok(Mapping(inner));
    TransitiveInclude(config, resolve, es, fuel, i, inner, j);
    var q := ExtractIncludeDirective(config, inner[j].value).value;
    assert resolve(q) == IncludeResult(env, q, baseDir);
  }

  /** The walk depends on its resolutions only through their values: two
      resolutions that agree on every payload give the same walk. */
  lemma {:induction false} ScanSameResolutions(config: Config, r1: Resolutions, r2: Resolutions, es: seq<Entry>)
    requires forall p :: r1(p) == r2(p)
    ensures Scan(config, r1, es) == Scan(config, r2, es)
  {
    if es != [] {
      ScanSameResolutions(config, r1, r2, es[..|es| - 1]);
    }
  }

  lemma {:induction false} WalkSameResolutions(config: Config, r1: Resolutions, r2: Resolutions, v: Value, fuel: nat)
    requires forall p :: r1(p) == r2(p)
    ensures Walk(config, r1, v, fuel) == Walk(config, r2, v, fuel)
    decreases fuel, 1
  {
    match v
    case Mapping(es) =>
      if fuel > 0 {
        MappingSameResolutions(config, r1, r2, es, fuel);
      }
    case Sequence(xs) =>
      if fuel > 0 {
        WalkItemsSameResolutions(config, r1, r2, xs, fuel - 1);
      }
    case _ =>
  }

  lemma {:induction false} MappingSameResolutions(config: Config, r1: Resolutions, r2: Resolutions, es: seq<Entry>, fuel: nat)
    requires forall p :: r1(p) == r2(p)
    requires fuel > 0
    ensures Walk(config, r1, Mapping(es), fuel) == Walk(config, r2, Mapping(es), fuel)
    decreases fuel, 0
  {
    ScanSameResolutions(config, r1, r2, es);
    var s := Scan(config, r1, es);
    if s.Ok? {
      WalkEntriesSameResolutions(config, r1, r2, Apply(es, s.value), fuel - 1);
    }
  }

  lemma {:induction false} WalkEntriesSameResolutions(config: Config, r1: Resolutions, r2: Resolutions, es: seq<Entry>, fuel: nat)
    requires forall p :: r1(p) == r2(p)
    ensures WalkEntries(config, r1, es, fuel) == WalkEntries(config, r2, es, fuel)
    decreases fuel, |es| + 1
  {
    if es != [] {
      WalkEntriesSameResolutions(config, r1, r2, es[..|es| - 1], fuel);
      WalkSameResolutions(config, r1, r2, es[|es| - 1].value, fuel);
    }
  }

  lemma {:induction false} WalkItemsSameResolutions(config: Config, r1: Resolutions, r2: Resolutions, xs: seq<Value>, fuel: nat)
    requires forall p :: r1(p) == r2(p)
    ensures WalkItems(config, r1, xs, fuel) == WalkItems(config, r2, xs, fuel)
    decreases fuel, |xs| + 1
  {
    if xs != [] {
      WalkItemsSameResolutions(config, r1, r2, xs[..|xs| - 1], fuel);
      WalkSameResolutions(config, r1, r2, xs[|xs| - 1], fuel);
    }
  }

  /** The outside world enters the walk only through resolutions at the one
      base directory: two environments that resolve every payload alike
      there give the same walk, at every depth. */
  lemma EnvSameResolutions(config: Config, env1: Env, env2: Env, baseDir: Path, v: Value, fuel: nat)
    requires forall p :: IncludeResult(env1, p, baseDir) == IncludeResult(env2, p, baseDir)
    ensures Walk(config, ResolveAt(env1, baseDir), v, fuel) == Walk(config, ResolveAt(env2, baseDir), v, fuel)
  {
    WalkSameResolutions(config, ResolveAt(env1, baseDir), ResolveAt(env2, baseDir), v, fuel);
  }

  // ---------------------------------------------------------------------------
  // process_file

  /** A root document without directives is serialized as parsed. */
  lemma ProcessFileWithoutDirectives(config: Config, env: Env, filePath: Path, fuel: nat)
    requires ReadFile(env, filePath).Ok?
    requires ParseYaml(env, ReadFile(env, filePath).value).Ok?
    requires var root := ParseYaml(env, ReadFile(env, filePath).value).value;
      Settled(config, root) && fuel >= Depth(root)
    ensures var root := ParseYaml(env, ReadFile(env, filePath).value).value;
      ProcessFile(config, env, filePath, fuel) ==
        match env.emitYaml(root)
        case Fine(text) => Done(text)
        case Fault(m) => Failed(Yaml(m))
  {
    var root := ParseYaml(env, ReadFile(env, filePath).value).value;
    WalkSettledIdentity(config, ResolveAt(env, BaseDir(env, filePath)), root, fuel);
  }
}
