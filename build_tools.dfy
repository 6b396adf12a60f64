/** The build tools shared by the code builders: which accumulators collect a
    newly created instance, the lines emitted after an instance is created
    (accumulator additions, optionally under a lock, and the OnNewInstance
    call), the tag of a variable and its declaration prefix. The regular
    expression filter, the type resolver, the base-type provider and the lock
    statements are oracles: their answers are parameters, or a single line
    token. */
module BuildTools {
  import opened Models
  import opened Sorting

  /** An accumulator of the composition: it collects created instances of a
      type, for one lifetime, at the root or everywhere. */
  datatype Accumulator = Accumulator(name: string, accType: TypeId, lifetime: Lifetime, isRoot: bool)

  /** The text of an emitted line. */
  datatype Text =
    | LockStatements
    | OpenBrace
    | AccumulatorAdd(accumulator: string)
    | CloseBrace
    | UnlockStatements
    | OnNewInstanceCall

  datatype Line = Line(indent: nat, text: Text)

  /** What OnCreated reads of the build context and of the setup's hints. */
  datatype BuildContext = BuildContext(
    lockIsRequired: Option<bool>,
    threadSafeHint: bool,
    onNewInstanceHint: bool,
    accumulators: seq<Accumulator>,
    contextTag: Tag)

  // ---------------------------------------------------------------------------
  // Accumulator selection

  /** An accumulator collects a created instance only of its own lifetime: a
      root accumulator always, any other only for the transient and per-block
      lifetimes (the lifetimes whose instances are not shared). */
  function FilterAccumulator(acc: Accumulator, lifetime: Lifetime): (r: bool)
    ensures r <==> acc.lifetime == lifetime && (acc.isRoot || lifetime == Transient || lifetime == PerBlock)
  {
    if acc.lifetime != lifetime then false
    else if acc.isRoot then true
    else !(lifetime == Singleton || lifetime == Scoped || lifetime == PerResolve)
  }

  predicate Eligible(acc: Accumulator, lifetime: Lifetime, baseTypes: set<TypeId>) {
    FilterAccumulator(acc, lifetime) && acc.accType in baseTypes
  }

  /** The two Where clauses, in order. */
  function EligibleOf(accs: seq<Accumulator>, lifetime: Lifetime, baseTypes: set<TypeId>): (r: seq<Accumulator>)
    ensures forall x :: x in r <==> x in accs && Eligible(x, lifetime, baseTypes)
  {
    if accs == [] then []
    else
      var n := |accs| - 1;
      assert accs == accs[..n] + [accs[n]];
      EligibleOf(accs[..n], lifetime, baseTypes) + (if Eligible(accs[n], lifetime, baseTypes) then [accs[n]] else [])
  }

  predicate NameIn(name: string, s: seq<Accumulator>) {
    exists j :: 0 <= j < |s| && s[j].name == name
  }

  lemma EligibleNames(accs: seq<Accumulator>, lifetime: Lifetime, baseTypes: set<TypeId>, name: string)
    ensures NameIn(name, EligibleOf(accs, lifetime, baseTypes)) <==>
      exists a :: a in accs && Eligible(a, lifetime, baseTypes) && a.name == name
  {
    var e := EligibleOf(accs, lifetime, baseTypes);
    if NameIn(name, e) {
      var j :| 0 <= j < |e| && e[j].name == name;
      assert e[j] in e;
    }
    if exists a :: a in accs && Eligible(a, lifetime, baseTypes) && a.name == name {
      var a :| a in accs && Eligible(a, lifetime, baseTypes) && a.name == name;
      assert a in e;
      var j :| 0 <= j < |e| && e[j] == a;
    }
  }

  /** The Where clauses keep the declaration order: two eligible accumulators
      appear in the result in the order they are declared. */
  lemma {:induction false} EligibleOfKeepsOrder(accs: seq<Accumulator>, lifetime: Lifetime, baseTypes: set<TypeId>, i: nat, j: nat)
    requires i < j < |accs| && Eligible(accs[i], lifetime, baseTypes) && Eligible(accs[j], lifetime, baseTypes)
    ensures exists a, b ::
      && 0 <= a < b < |EligibleOf(accs, lifetime, baseTypes)|
      && EligibleOf(accs, lifetime, baseTypes)[a] == accs[i] && EligibleOf(accs, lifetime, baseTypes)[b] == accs[j]
  {
    var n := |accs| - 1;
    var p := accs[..n];
    var e := EligibleOf(p, lifetime, baseTypes);
    var r := EligibleOf(accs, lifetime, baseTypes);
    assert r == e + (if Eligible(accs[n], lifetime, baseTypes) then [accs[n]] else []);
    assert p[i] == accs[i];
    if j < n {
      assert p[j] == accs[j];
      EligibleOfKeepsOrder(p, lifetime, baseTypes, i, j);
      var x, y :| 0 <= x < y < |e| && e[x] == accs[i] && e[y] == accs[j];
      assert r[x] == accs[i] && r[y] == accs[j];
    } else {
      assert accs[i] in e;
      var x :| 0 <= x < |e| && e[x] == accs[i];
      assert r[x] == accs[i] && r[|e|] == accs[j];
    }
  }

  /** GroupBy(name).Select(First): the first accumulator of each name, in the
      order of the first occurrences. */
  function FirstOfEachName(s: seq<Accumulator>): (r: seq<Accumulator>) {
    if s == [] then []
    else
      var n := |s| - 1;
      var rest := FirstOfEachName(s[..n]);
      if NameIn(s[n].name, s[..n]) then rest else rest + [s[n]]
  }

  /** x is the first element of s with its name. */
  predicate IsFirstOfName(s: seq<Accumulator>, x: Accumulator) {
    exists i :: 0 <= i < |s| && s[i] == x && !NameIn(x.name, s[..i])
  }

  lemma NameInSnoc(name: string, p: seq<Accumulator>, y: Accumulator)
    ensures NameIn(name, p + [y]) <==> NameIn(name, p) || y.name == name
  {
    if NameIn(name, p) {
      var j :| 0 <= j < |p| && p[j].name == name;
      assert (p + [y])[j] == p[j];
    }
    if NameIn(name, p + [y]) {
      var j :| 0 <= j < |p + [y]| && (p + [y])[j].name == name;
      if j < |p| { assert p[j] == (p + [y])[j]; }
    }
    if y.name == name {
      assert (p + [y])[|p|] == y;
    }
  }

  lemma IsFirstOfNameSnoc(p: seq<Accumulator>, y: Accumulator, x: Accumulator)
    ensures IsFirstOfName(p + [y], x) <==> IsFirstOfName(p, x) || (x == y && !NameIn(y.name, p))
  {
    var s := p + [y];
    if IsFirstOfName(s, x) {
      var i :| 0 <= i < |s| && s[i] == x && !NameIn(x.name, s[..i]);
      if i < |p| {
        assert s[..i] == p[..i] && p[i] == x;
      } else {
        assert s[..i] == p;
      }
    }
    if IsFirstOfName(p, x) {
      var i :| 0 <= i < |p| && p[i] == x && !NameIn(x.name, p[..i]);
      assert s[..i] == p[..i] && s[i] == x;
    }
    if x == y && !NameIn(y.name, p) {
      assert s[..|p|] == p && s[|p|] == y;
    }
  }

  /** A name occurs among the kept accumulators exactly when it occurs in s. */
  lemma {:induction false} FirstOfEachNameNames(s: seq<Accumulator>)
    ensures forall name :: NameIn(name, FirstOfEachName(s)) <==> NameIn(name, s)
  {
    if s != [] {
      var n := |s| - 1;
      var p := s[..n];
      assert s == p + [s[n]];
      FirstOfEachNameNames(p);
      forall name ensures NameIn(name, FirstOfEachName(s)) <==> NameIn(name, s) {
        NameInSnoc(name, p, s[n]);
        NameInSnoc(name, FirstOfEachName(p), s[n]);
      }
    }
  }

  /** The kept accumulators are exactly the first of each name. */
  lemma {:induction false} FirstOfEachNameMembers(s: seq<Accumulator>)
    ensures forall x :: x in FirstOfEachName(s) <==> IsFirstOfName(s, x)
  {
    if s != [] {
      var n := |s| - 1;
      var p := s[..n];
      assert s == p + [s[n]];
      FirstOfEachNameMembers(p);
      forall x ensures x in FirstOfEachName(s) <==> IsFirstOfName(s, x) {
        IsFirstOfNameSnoc(p, s[n], x);
      }
    }
  }

  predicate DistinctNames(s: seq<Accumulator>) {
    forall i, j :: 0 <= i < j < |s| ==> s[i].name != s[j].name
  }

  /** No two kept accumulators share a name. */
  lemma {:induction false} FirstOfEachNameDistinct(s: seq<Accumulator>)
    ensures DistinctNames(FirstOfEachName(s))
  {
    if s != [] {
      var n := |s| - 1;
      var p := s[..n];
      FirstOfEachNameDistinct(p);
      if !NameIn(s[n].name, p) {
        FirstOfEachNameNames(p);
        var rp := FirstOfEachName(p);
        var r := rp + [s[n]];
        forall i, j | 0 <= i < j < |r| ensures r[i].name != r[j].name {
          if j == |rp| {
            assert !NameIn(s[n].name, rp);
            assert r[i] == rp[i];
          } else {
            assert r[i] == rp[i] && r[j] == rp[j];
          }
        }
      }
    }
  }

  predicate SortedByName(s: seq<Accumulator>) {
    forall i, j :: 0 <= i < j < |s| ==> StringLe(s[i].name, s[j].name)
  }

  function InsertByName(x: Accumulator, s: seq<Accumulator>): (r: seq<Accumulator>)
    requires SortedByName(s)
    ensures SortedByName(r)
    ensures multiset(r) == multiset(s) + multiset{x}
  {
    if s == [] || StringLe(x.name, s[0].name) then
      forall j | 0 <= j < |s| ensures StringLe(x.name, s[j].name) {
        if j > 0 { StringLeTransitive(x.name, s[0].name, s[j].name); }
      }
      SortedInFront(x, s);
      [x] + s
    else
      StringLeTotal(x.name, s[0].name);
      var tail := InsertByName(x, s[1..]);
      assert s == [s[0]] + s[1..];
      forall j | 0 <= j < |tail| ensures StringLe(s[0].name, tail[j].name) {
        assert tail[j] in multiset(s[1..]) + multiset{x};
        if tail[j] != x {
          var k :| 0 <= k < |s[1..]| && s[1..][k] == tail[j];
          assert s[k + 1] == tail[j];
        }
      }
      SortedInFront(s[0], tail);
      [s[0]] + tail
  }

  /** An accumulator no greater than the first of a sorted sequence may go in front. */
  lemma SortedInFront(x: Accumulator, s: seq<Accumulator>)
    requires SortedByName(s)
    requires forall j :: 0 <= j < |s| ==> StringLe(x.name, s[j].name)
    ensures SortedByName([x] + s)
  {
    var r := [x] + s;
    forall i, j | 0 <= i < j < |r| ensures StringLe(r[i].name, r[j].name) {
      assert r[j] == s[j - 1];
      if i > 0 {
        assert r[i] == s[i - 1];
      }
    }
  }

  lemma InsertByNameMembers(x: Accumulator, s: seq<Accumulator>)
    requires SortedByName(s)
    ensures forall y :: y in InsertByName(x, s) <==> y in s || y == x
  {
    var r := InsertByName(x, s);
    forall y ensures y in r <==> y in s || y == x {
      assert y in r <==> y in multiset(r);
      assert y in s <==> y in multiset(s);
    }
  }

  /** Inserting an accumulator of a new name keeps the names distinct. */
  lemma {:induction false} InsertByNameDistinct(x: Accumulator, s: seq<Accumulator>)
    requires SortedByName(s) && DistinctNames(s) && !NameIn(x.name, s)
    ensures DistinctNames(InsertByName(x, s))
  {
    if !(s == [] || StringLe(x.name, s[0].name)) {
      forall j | 0 <= j < |s[1..]| ensures s[1..][j].name != x.name {
        assert s[1..][j] == s[j + 1];
      }
      assert !NameIn(x.name, s[1..]);
      InsertByNameDistinct(x, s[1..]);
      var tail := InsertByName(x, s[1..]);
      InsertByNameMembers(x, s[1..]);
      forall j | 0 <= j < |tail| ensures tail[j].name != s[0].name {
        assert tail[j] in tail;
        if tail[j] != x {
          var k :| 0 <= k < |s[1..]| && s[1..][k] == tail[j];
          assert s[k + 1] == tail[j];
        } else {
          assert s[0].name != x.name;
        }
      }
      var r := [s[0]] + tail;
      forall i, j | 0 <= i < j < |r| ensures r[i].name != r[j].name {
        if i > 0 { assert r[i] == tail[i - 1] && r[j] == tail[j - 1]; }
      }
    } else {
      var r := [x] + s;
      forall i, j | 0 <= i < j < |r| ensures r[i].name != r[j].name {
        if i == 0 {
          assert r[j] == s[j - 1];
        }
      }
    }
  }

  /** OrderBy(name), by ordinal string comparison. */
  function SortByName(s: seq<Accumulator>): (r: seq<Accumulator>)
    ensures SortedByName(r)
    ensures multiset(r) == multiset(s)
  {
    if s == [] then []
    else
      assert s == [s[0]] + s[1..];
      InsertByName(s[0], SortByName(s[1..]))
  }

  /** Sorting keeps the accumulators and keeps the names distinct. */
  lemma {:induction false} SortByNameDistinct(s: seq<Accumulator>)
    requires DistinctNames(s)
    ensures DistinctNames(SortByName(s))
    ensures forall x :: x in SortByName(s) <==> x in s
  {
    forall x ensures x in SortByName(s) <==> x in s {
      assert x in SortByName(s) <==> x in multiset(SortByName(s));
      assert x in s <==> x in multiset(s);
    }
    if s != [] {
      var rest := s[1..];
      assert DistinctNames(rest) by {
        forall i, j | 0 <= i < j < |rest| ensures rest[i].name != rest[j].name {
          assert rest[i] == s[i + 1] && rest[j] == s[j + 1];
        }
      }
      SortByNameDistinct(rest);
      var sr := SortByName(rest);
      forall j | 0 <= j < |sr| ensures sr[j].name != s[0].name {
        assert sr[j] in rest;
        var k :| 0 <= k < |rest| && rest[k] == sr[j];
        assert rest[k] == s[k + 1];
      }
      assert !NameIn(s[0].name, sr);
      InsertByNameDistinct(s[0], sr);
    }
  }

  /** The accumulators that receive the created instance, in the order of their lines. */
  function SelectedAccumulators(accs: seq<Accumulator>, lifetime: Lifetime, baseTypes: set<TypeId>): seq<Accumulator> {
    SortByName(FirstOfEachName(EligibleOf(accs, lifetime, baseTypes)))
  }

  /** Some eligible accumulator of p has this name. */
  predicate EligibleNameIn(name: string, p: seq<Accumulator>, lifetime: Lifetime, baseTypes: set<TypeId>) {
    exists j :: 0 <= j < |p| && Eligible(p[j], lifetime, baseTypes) && p[j].name == name
  }

  /** x is eligible and no eligible accumulator declared before it has its name. */
  predicate FirstEligible(accs: seq<Accumulator>, lifetime: Lifetime, baseTypes: set<TypeId>, x: Accumulator) {
    exists i :: 0 <= i < |accs| && accs[i] == x && Eligible(x, lifetime, baseTypes) &&
      !EligibleNameIn(x.name, accs[..i], lifetime, baseTypes)
  }

  lemma EligibleNameInPrefix(name: string, p: seq<Accumulator>, lifetime: Lifetime, baseTypes: set<TypeId>)
    ensures NameIn(name, EligibleOf(p, lifetime, baseTypes)) <==> EligibleNameIn(name, p, lifetime, baseTypes)
  {
    EligibleNames(p, lifetime, baseTypes, name);
    if EligibleNameIn(name, p, lifetime, baseTypes) {
      var j :| 0 <= j < |p| && Eligible(p[j], lifetime, baseTypes) && p[j].name == name;
      assert p[j] in p;
    }
  }

  lemma FirstEligibleSnoc(p: seq<Accumulator>, y: Accumulator, x: Accumulator, lifetime: Lifetime, baseTypes: set<TypeId>)
    ensures FirstEligible(p + [y], lifetime, baseTypes, x) <==>
      || FirstEligible(p, lifetime, baseTypes, x)
      || (x == y && Eligible(y, lifetime, baseTypes) && !EligibleNameIn(y.name, p, lifetime, baseTypes))
  {
    var s := p + [y];
    if FirstEligible(s, lifetime, baseTypes, x) {
      var i :| 0 <= i < |s| && s[i] == x && Eligible(x, lifetime, baseTypes) &&
        !EligibleNameIn(x.name, s[..i], lifetime, baseTypes);
      if i < |p| {
        assert s[..i] == p[..i] && p[i] == x;
      } else {
        assert s[..i] == p;
      }
    }
    if FirstEligible(p, lifetime, baseTypes, x) {
      var i :| 0 <= i < |p| && p[i] == x && Eligible(x, lifetime, baseTypes) &&
        !EligibleNameIn(x.name, p[..i], lifetime, baseTypes);
      assert s[..i] == p[..i] && s[i] == x;
    }
    if x == y && Eligible(y, lifetime, baseTypes) && !EligibleNameIn(y.name, p, lifetime, baseTypes) {
      assert s[..|p|] == p && s[|p|] == y;
    }
  }

  /** The first of each name among the eligible accumulators is the first
      eligible accumulator of that name in declaration order. */
  lemma {:induction false} FirstOfEligible(accs: seq<Accumulator>, lifetime: Lifetime, baseTypes: set<TypeId>, x: Accumulator)
    ensures IsFirstOfName(EligibleOf(accs, lifetime, baseTypes), x) <==> FirstEligible(accs, lifetime, baseTypes, x)
  {
    if accs != [] {
      var n := |accs| - 1;
      var p := accs[..n];
      var y := accs[n];
      assert accs == p + [y];
      FirstOfEligible(p, lifetime, baseTypes, x);
      FirstEligibleSnoc(p, y, x, lifetime, baseTypes);
      EligibleNameInPrefix(y.name, p, lifetime, baseTypes);
      var e := EligibleOf(p, lifetime, baseTypes);
      if Eligible(y, lifetime, baseTypes) {
        assert EligibleOf(accs, lifetime, baseTypes) == e + [y];
        IsFirstOfNameSnoc(e, y, x);
      } else {
        assert EligibleOf(accs, lifetime, baseTypes) == e;
      }
    }
  }

  /** The selection: eligible accumulators only, the first of each name among
      the eligible ones, every eligible name represented, names strictly
      ascending. */
  lemma SelectionSpec(accs: seq<Accumulator>, lifetime: Lifetime, baseTypes: set<TypeId>)
    ensures var e := EligibleOf(accs, lifetime, baseTypes);
      var r := SelectedAccumulators(accs, lifetime, baseTypes);
      && (forall x :: x in r ==> x in accs && FilterAccumulator(x, lifetime) && x.accType in baseTypes)
      && (forall x :: x in r <==> IsFirstOfName(e, x))
      && (forall x :: x in r <==> FirstEligible(accs, lifetime, baseTypes, x))
      && (forall name :: (exists x :: x in r && x.name == name) <==> NameIn(name, e))
      && (forall i, j :: 0 <= i < j < |r| ==> StringLe(r[i].name, r[j].name) && r[i].name != r[j].name)
  {
    var e := EligibleOf(accs, lifetime, baseTypes);
    var d := FirstOfEachName(e);
    var r := SortByName(d);
    FirstOfEachNameMembers(e);
    FirstOfEachNameNames(e);
    FirstOfEachNameDistinct(e);
    SortByNameDistinct(d);
    forall x ensures IsFirstOfName(e, x) <==> FirstEligible(accs, lifetime, baseTypes, x) {
      FirstOfEligible(accs, lifetime, baseTypes, x);
    }
    forall x | x in r ensures x in accs && Eligible(x, lifetime, baseTypes) {
      var i :| 0 <= i < |e| && e[i] == x && !NameIn(x.name, e[..i]);
    }
    forall name ensures (exists x :: x in r && x.name == name) <==> NameIn(name, d) {
      if NameIn(name, d) {
        var j :| 0 <= j < |d| && d[j].name == name;
        assert d[j] in r;
      }
      if exists x :: x in r && x.name == name {
        var x :| x in r && x.name == name;
        var j :| 0 <= j < |d| && d[j] == x;
      }
    }
  }

  // ---------------------------------------------------------------------------
  // Lines

  /** A code builder: the lines so far and the current indent. LinesBuilder
      is assumed to record each appended line at the current indent plus the
      line's own indent, and to keep the indent at zero or above. */
  class LinesBuilder {
    var lines: seq<Line>
    var indent: nat

    constructor ()
      ensures lines == [] && indent == 0
    {
      lines := [];
      indent := 0;
    }

    method AppendLine(text: Text)
      modifies this
      ensures lines == old(lines) + [Line(indent, text)] && indent == old(indent)
    {
      lines := lines + [Line(indent, text)];
    }

    method IncIndent()
      modifies this
      ensures lines == old(lines) && indent == old(indent) + 1
    {
      indent := indent + 1;
    }

    method DecIndent()
      modifies this
      ensures lines == old(lines) && indent == if old(indent) > 0 then old(indent) - 1 else 0
    {
      if indent > 0 {
        indent := indent - 1;
      }
    }

    method AppendLines(ls: seq<Line>)
      modifies this
      ensures lines == old(lines) + Shifted(ls, indent) && indent == old(indent)
    {
      var i := 0;
      ghost var start := lines;
      while i < |ls|
        invariant i <= |ls| && lines == start + Shifted(ls[..i], indent) && indent == old(indent)
      {
        assert ls[..i + 1] == ls[..i] + [ls[i]];
        ShiftedSnoc(ls[..i], ls[i], indent);
        lines := lines + [Line(indent + ls[i].indent, ls[i].text)];
        i := i + 1;
      }
      assert ls[..i] == ls;
    }
  }

  /** The lines moved right by offset. */
  function Shifted(ls: seq<Line>, offset: nat): (r: seq<Line>)
    ensures |r| == |ls|
    ensures forall i :: 0 <= i < |r| ==> r[i] == Line(ls[i].indent + offset, ls[i].text)
  {
    seq(|ls|, i requires 0 <= i < |ls| => Line(ls[i].indent + offset, ls[i].text))
  }

  lemma ShiftedSnoc(ls: seq<Line>, l: Line, offset: nat)
    ensures Shifted(ls + [l], offset) == Shifted(ls, offset) + [Line(l.indent + offset, l.text)]
  {
  }

  /** Locking is required when the context says so or, when it does not say,
      when the thread-safe hint is on. */
  function LockRequired(ctx: BuildContext): bool {
    ctx.lockIsRequired.GetOr(ctx.threadSafeHint)
  }

  /** One line per selected accumulator, at indent 0. */
  function AccumulatorLines(accs: seq<Accumulator>): (r: seq<Line>)
    ensures |r| == |accs|
    ensures forall i :: 0 <= i < |r| ==> r[i] == Line(0, AccumulatorAdd(accs[i].name))
  {
    seq(|accs|, i requires 0 <= i < |accs| => Line(0, AccumulatorAdd(accs[i].name)))
  }

  predicate HasText(ls: seq<Line>, t: Text) {
    exists i :: 0 <= i < |ls| && ls[i].text == t
  }

  lemma HasTextAppend(a: seq<Line>, b: seq<Line>, t: Text)
    ensures HasText(a + b, t) <==> HasText(a, t) || HasText(b, t)
  {
    if HasText(a + b, t) {
      var i :| 0 <= i < |a + b| && (a + b)[i].text == t;
      if i < |a| { assert a[i] == (a + b)[i]; } else { assert b[i - |a|] == (a + b)[i]; }
    }
    if HasText(a, t) {
      var i :| 0 <= i < |a| && a[i].text == t;
      assert (a + b)[i] == a[i];
    }
    if HasText(b, t) {
      var i :| 0 <= i < |b| && b[i].text == t;
      assert (a + b)[|a| + i] == b[i];
    }
  }

  /** The accumulator lines, between the lock statements and braces when
      locked, and indented inside them. */
  function Wrapped(acc: seq<Line>, locked: bool): seq<Line> {
    if locked then [Line(0, LockStatements), Line(0, OpenBrace)] + Shifted(acc, 1) + [Line(0, CloseBrace), Line(0, UnlockStatements)]
    else acc
  }

  predicate AllAdditions(acc: seq<Line>) {
    forall i :: 0 <= i < |acc| ==> acc[i].indent == 0 && acc[i].text.AccumulatorAdd?
  }

  lemma WrappedTexts(acc: seq<Line>, locked: bool)
    requires AllAdditions(acc)
    ensures var w := Wrapped(acc, locked);
      && (HasText(w, LockStatements) <==> locked)
      && (HasText(w, UnlockStatements) <==> locked)
      && !HasText(w, OnNewInstanceCall)
      && (forall name :: HasText(w, AccumulatorAdd(name)) <==> HasText(acc, AccumulatorAdd(name)))
  {
    var w := Wrapped(acc, locked);
    if locked {
      var head := [Line(0, LockStatements), Line(0, OpenBrace)];
      var tail := [Line(0, CloseBrace), Line(0, UnlockStatements)];
      var mid := Shifted(acc, 1);
      assert w == head + mid + tail;
      forall t ensures HasText(w, t) <==> HasText(head, t) || HasText(mid, t) || HasText(tail, t) {
        HasTextAppend(head + mid, tail, t);
        HasTextAppend(head, mid, t);
      }
      forall t ensures HasText(mid, t) <==> HasText(acc, t) {
        if HasText(mid, t) {
          var i :| 0 <= i < |mid| && mid[i].text == t;
          assert acc[i].text == t;
        }
        if HasText(acc, t) {
          var i :| 0 <= i < |acc| && acc[i].text == t;
          assert mid[i].text == t;
        }
      }
      assert !HasText(acc, LockStatements) && !HasText(acc, UnlockStatements) && !HasText(acc, OnNewInstanceCall);
      assert !HasText(head, OnNewInstanceCall) && !HasText(tail, OnNewInstanceCall);
      assert head[0].text == LockStatements && tail[1].text == UnlockStatements;
      assert !HasText(head, UnlockStatements) && !HasText(tail, LockStatements);
      forall name ensures !HasText(head, AccumulatorAdd(name)) && !HasText(tail, AccumulatorAdd(name)) { }
    } else {
      assert !HasText(acc, LockStatements) && !HasText(acc, UnlockStatements) && !HasText(acc, OnNewInstanceCall);
    }
  }

  /** The lines after a creation: the wrapped accumulator lines, after the
      OnNewInstance call when it is made. */
  function Prefixed(code: seq<Line>, onNewInstance: bool): seq<Line> {
    if onNewInstance then [Line(0, OnNewInstanceCall)] + code else code
  }

  /** The lines OnCreated returns for a variable. The base types of its
      instance type and the answer of the OnNewInstance filter are oracles. */
  function OnCreatedLines(ctx: BuildContext, variable: Variable, baseTypes: set<TypeId>, filterPasses: bool): (r: seq<Line>)
    ensures variable.node.arg ==> r == []
  {
    if variable.node.arg then []
    else
      var acc := AccumulatorLines(SelectedAccumulators(ctx.accumulators, variable.node.lifetime, baseTypes));
      Prefixed(Wrapped(acc, LockRequired(ctx) && |acc| > 0), ctx.onNewInstanceHint && filterPasses)
  }

  /** Where each line of the OnCreated output sits: the OnNewInstance call
      first when it is made; then, when locked, the accumulator lines one
      level in, between the lock statement and an opening brace and a closing
      brace and the unlock statement. */
  lemma PrefixedPositions(acc: seq<Line>, locked: bool, onNewInstance: bool)
    ensures var r := Prefixed(Wrapped(acc, locked), onNewInstance);
      var first := if onNewInstance then 1 else 0;
      && |r| == first + |acc| + (if locked then 4 else 0)
      && (onNewInstance ==> r[0] == Line(0, OnNewInstanceCall))
      && (locked ==> && r[first..first + 2] == [Line(0, LockStatements), Line(0, OpenBrace)]
                     && r[first + 2..|r| - 2] == Shifted(acc, 1)
                     && r[|r| - 2..] == [Line(0, CloseBrace), Line(0, UnlockStatements)])
      && (!locked ==> r[first..] == acc)
  {
    var w := Wrapped(acc, locked);
    var r := Prefixed(w, onNewInstance);
    var first := if onNewInstance then 1 else 0;
    assert r[first..] == w;
    if locked {
      var head := [Line(0, LockStatements), Line(0, OpenBrace)];
      var mid := Shifted(acc, 1);
      var tail := [Line(0, CloseBrace), Line(0, UnlockStatements)];
      assert w == head + mid + tail;
      assert w[..2] == head && w[2..|w| - 2] == mid && w[|w| - 2..] == tail;
      assert r[first..first + 2] == w[..2];
      assert r[first + 2..|r| - 2] == w[2..|w| - 2];
      assert r[|r| - 2..] == w[|w| - 2..];
    }
  }

  /** Which texts the OnCreated output holds. */
  lemma PrefixedTexts(acc: seq<Line>, locked: bool, onNewInstance: bool)
    requires AllAdditions(acc)
    ensures var r := Prefixed(Wrapped(acc, locked), onNewInstance);
      && (HasText(r, LockStatements) <==> locked)
      && (HasText(r, UnlockStatements) <==> locked)
      && (HasText(r, OnNewInstanceCall) <==> onNewInstance)
      && !HasText(r[if onNewInstance then 1 else 0..], OnNewInstanceCall)
      && (forall name :: HasText(r, AccumulatorAdd(name)) <==> HasText(acc, AccumulatorAdd(name)))
  {
    var w := Wrapped(acc, locked);
    WrappedTexts(acc, locked);
    if onNewInstance {
      var head := [Line(0, OnNewInstanceCall)];
      HasTextAppend(head, w, LockStatements);
      HasTextAppend(head, w, UnlockStatements);
      HasTextAppend(head, w, OnNewInstanceCall);
      assert (head + w)[1..] == w;
      assert head[0].text == OnNewInstanceCall;
      forall name ensures HasText(head + w, AccumulatorAdd(name)) <==> HasText(w, AccumulatorAdd(name)) {
        HasTextAppend(head, w, AccumulatorAdd(name));
      }
    }
  }

  /** The lock and unlock statements surround the accumulator lines exactly
      when locking is required and some accumulator is selected; the call to
      OnNewInstance comes first exactly when its hint is on and the filter
      passes, and nowhere else. */
  lemma OnCreatedShape(ctx: BuildContext, variable: Variable, baseTypes: set<TypeId>, filterPasses: bool)
    requires !variable.node.arg
    ensures var r := OnCreatedLines(ctx, variable, baseTypes, filterPasses);
      var selected := SelectedAccumulators(ctx.accumulators, variable.node.lifetime, baseTypes);
      var locked := LockRequired(ctx) && |selected| > 0;
      var first := if ctx.onNewInstanceHint && filterPasses then 1 else 0;
      && (HasText(r, LockStatements) <==> locked)
      && (HasText(r, UnlockStatements) <==> locked)
      && (HasText(r, OnNewInstanceCall) <==> ctx.onNewInstanceHint && filterPasses)
      && (first == 1 ==> r[0] == Line(0, OnNewInstanceCall))
      && !HasText(r[first..], OnNewInstanceCall)
      && |r| == first + |selected| + (if locked then 4 else 0)
      && (locked ==> && r[first..first + 2] == [Line(0, LockStatements), Line(0, OpenBrace)]
                     && r[first + 2..|r| - 2] == Shifted(AccumulatorLines(selected), 1)
                     && r[|r| - 2..] == [Line(0, CloseBrace), Line(0, UnlockStatements)])
      && (!locked ==> r[first..] == AccumulatorLines(selected))
  {
    var selected := SelectedAccumulators(ctx.accumulators, variable.node.lifetime, baseTypes);
    var acc := AccumulatorLines(selected);
    PrefixedPositions(acc, LockRequired(ctx) && |acc| > 0, ctx.onNewInstanceHint && filterPasses);
    PrefixedTexts(acc, LockRequired(ctx) && |acc| > 0, ctx.onNewInstanceHint && filterPasses);
  }

  /** An addition line names exactly the selected accumulators. */
  lemma AccumulatorLinesNames(selected: seq<Accumulator>, name: string)
    ensures HasText(AccumulatorLines(selected), AccumulatorAdd(name)) <==> exists x :: x in selected && x.name == name
  {
    var acc := AccumulatorLines(selected);
    if HasText(acc, AccumulatorAdd(name)) {
      var i :| 0 <= i < |acc| && acc[i].text == AccumulatorAdd(name);
      assert selected[i] in selected;
    }
    if exists x :: x in selected && x.name == name {
      var x :| x in selected && x.name == name;
      var i :| 0 <= i < |selected| && selected[i] == x;
      assert acc[i].text == AccumulatorAdd(name);
    }
  }

  /** An accumulator's name is added for the created instance exactly when
      some eligible accumulator has that name. */
  lemma OnCreatedAddsEligible(ctx: BuildContext, variable: Variable, baseTypes: set<TypeId>, filterPasses: bool, name: string)
    requires !variable.node.arg
    ensures HasText(OnCreatedLines(ctx, variable, baseTypes, filterPasses), AccumulatorAdd(name)) <==>
      exists a :: a in ctx.accumulators && Eligible(a, variable.node.lifetime, baseTypes) && a.name == name
  {
    var lifetime := variable.node.lifetime;
    var selected := SelectedAccumulators(ctx.accumulators, lifetime, baseTypes);
    var acc := AccumulatorLines(selected);
    PrefixedTexts(acc, LockRequired(ctx) && |acc| > 0, ctx.onNewInstanceHint && filterPasses);
    AccumulatorLinesNames(selected, name);
    SelectionSpec(ctx.accumulators, lifetime, baseTypes);
    EligibleNames(ctx.accumulators, lifetime, baseTypes, name);
  }

  lemma ShiftedByZero(ls: seq<Line>)
    ensures Shifted(ls, 0) == ls
  {
  }

  /** Appends the accumulator lines to a builder at indent 0, inside the
      lock statements and braces when locked. */
  method AppendWrapped(code: LinesBuilder, accLines: seq<Line>, locked: bool)
    requires code.indent == 0
    modifies code
    ensures code.lines == old(code.lines) + Wrapped(accLines, locked) && code.indent == 0
  {
    if locked {
      code.AppendLine(LockStatements);
      code.AppendLine(OpenBrace);
      code.IncIndent();
    }
    code.AppendLines(accLines);
    if locked {
      code.DecIndent();
      code.AppendLine(CloseBrace);
      code.AppendLine(UnlockStatements);
      assert code.lines == old(code.lines) + [Line(0, LockStatements), Line(0, OpenBrace)] + Shifted(accLines, 1)
        + [Line(0, CloseBrace), Line(0, UnlockStatements)];
    } else {
      ShiftedByZero(accLines);
    }
  }

  /** OnCreated: builds the lines step by step in a LinesBuilder. */
  method OnCreated(ctx: BuildContext, variable: Variable, baseTypes: set<TypeId>, filterPasses: bool) returns (lines: seq<Line>)
    ensures lines == OnCreatedLines(ctx, variable, baseTypes, filterPasses)
  {
    if variable.node.arg {
      return [];
    }
    var code := new LinesBuilder();
    var lockIsRequired := LockRequired(ctx);
    var accLines := AccumulatorLines(SelectedAccumulators(ctx.accumulators, variable.node.lifetime, baseTypes));
    AppendWrapped(code, accLines, lockIsRequired && |accLines| > 0);
    assert code.lines == Wrapped(accLines, lockIsRequired && |accLines| > 0);
    if !ctx.onNewInstanceHint || !filterPasses {
      return code.lines;
    }
    lines := [Line(0, OnNewInstanceCall)] + code.lines;
  }

  // ---------------------------------------------------------------------------
  // Tags and declarations

  /** The tag of a variable: the context tag stands for the tag of the build context. */
  function GetTag(ctx: BuildContext, variable: Variable): (r: Tag)
    ensures variable.injection.tag.ContextTag? ==> r == ctx.contextTag
    ensures !variable.injection.tag.ContextTag? ==> r == variable.injection.tag
  {
    var tag := variable.injection.tag;
    if tag.ContextTag? then ctx.contextTag else tag
  }

  /** The declaration prefix of a variable: nothing once it is declared,
      otherwise its resolved type name and the separator, a single space
      unless the caller gives another. */
  function GetDeclaration(variable: Variable, typeName: string, separator: string := " "): (r: string)
    ensures variable.IsDeclared() ==> r == ""
    ensures !variable.IsDeclared() ==> r == typeName + separator
    ensures |typeName + separator| > 0 ==> (r == "" <==> variable.IsDeclared())
  {
    if variable.IsDeclared() then "" else typeName + separator
  }
}
