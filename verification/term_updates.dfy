/**
 * Single-valued term updates (labels, descriptions): a map of modified terms
 * and a set of removed languages, kept disjoint, and the builder that merges
 * edits into one against an optional baseline, dropping edits that reproduce
 * the baseline.
 */
module TermUpdates {
  import opened Wrappers
  import opened Entities

  /** Changes to the terms of one kind, keyed by language code. */
  datatype TermUpdate = TermUpdate(modified: map<string, MonolingualText>, removed: set<string>)

  const EmptyTermUpdate := TermUpdate(map[], {})

  /** A language is in at most one of the two parts, and each modified term is keyed by its own language. */
  predicate Valid(u: TermUpdate)
  {
    && u.modified.Keys !! u.removed
    && forall l :: l in u.modified ==> u.modified[l].language == l
  }

  /** What an update does to one language. */
  datatype TermEdit = Untouched | Modified(term: MonolingualText) | Removed

  function EditOf(u: TermUpdate, l: string): (e: TermEdit)
  {
    if l in u.modified then Modified(u.modified[l])
    else if l in u.removed then Removed
    else Untouched
  }

  /** The terms that result from applying an update to existing terms. */
  function ApplyToTerms(terms: map<string, MonolingualText>, u: TermUpdate): (r: map<string, MonolingualText>)
  {
    (terms - u.removed) + u.modified
  }

  /** The term a language has after an edit, given the terms before it. */
  function TermAfter(terms: map<string, MonolingualText>, e: TermEdit, l: string): (r: Option<MonolingualText>)
  {
    match e
    case Untouched => Get(terms, l)
    case Modified(v) => Some(v)
    case Removed => None
  }

  lemma ApplyToTermsPointwise(terms: map<string, MonolingualText>, u: TermUpdate, l: string)
    requires Valid(u)
    ensures Get(ApplyToTerms(terms, u), l) == TermAfter(terms, EditOf(u, l), l)
  {
  }

  /** Two valid updates that agree on every language are the same update. */
  lemma {:induction false} EditsDetermineUpdate(u1: TermUpdate, u2: TermUpdate)
    requires Valid(u1) && Valid(u2)
    requires forall l :: EditOf(u1, l) == EditOf(u2, l)
    ensures u1 == u2
  {
    forall l | l in u1.modified
      ensures l in u2.modified && u2.modified[l] == u1.modified[l]
    {
      assert EditOf(u1, l) == EditOf(u2, l);
    }
    forall l | l in u2.modified
      ensures l in u1.modified
    {
      assert EditOf(u1, l) == EditOf(u2, l);
    }
    assert u1.modified == u2.modified;
    forall l
      ensures l in u1.removed <==> l in u2.removed
    {
      assert EditOf(u1, l) == EditOf(u2, l);
    }
    assert u1.removed == u2.removed;
  }

  // ---------------------------------------------------------------------
  // The term update builder
  // ---------------------------------------------------------------------

  /** Staged term edits, optionally against the baseline terms of a base revision. */
  datatype TermBuilder = TermBuilder(base: Option<map<string, MonolingualText>>, pending: TermUpdate)

  /** A builder with no baseline: every edit is kept. */
  function Create(): (b: TermBuilder)
    ensures b.base.None? && b.pending == EmptyTermUpdate
  {
    TermBuilder(None, EmptyTermUpdate)
  }

  /** A builder that drops edits reproducing the given terms. */
  function ForTerms(terms: map<string, MonolingualText>): (b: TermBuilder)
    ensures b.base == Some(terms) && b.pending == EmptyTermUpdate
  {
    TermBuilder(Some(terms), EmptyTermUpdate)
  }

  /** Setting a term is redundant when the baseline already holds exactly that term. */
  predicate SetRedundant(base: Option<map<string, MonolingualText>>, v: MonolingualText)
  {
    base.Some? && v.language in base.value && base.value[v.language] == v
  }

  /** Removing a term is redundant when the baseline has no term in that language. */
  predicate RemoveRedundant(base: Option<map<string, MonolingualText>>, l: string)
  {
    base.Some? && l !in base.value
  }

  /**
   * The edit a builder keeps for a language after receiving `incoming` on top
   * of `prior`: the last edit wins, but one that reproduces the baseline
   * leaves the language untouched.
   */
  function Staged(base: Option<map<string, MonolingualText>>, l: string, prior: TermEdit, incoming: TermEdit): (e: TermEdit)
  {
    match incoming
    case Untouched => prior
    case Modified(v) => if SetRedundant(base, v) then Untouched else Modified(v)
    case Removed => if RemoveRedundant(base, l) then Untouched else Removed
  }

  function SetTerm(b: TermBuilder, v: MonolingualText): (r: TermBuilder)
    requires Valid(b.pending)
    ensures r.base == b.base && Valid(r.pending)
    ensures EditOf(r.pending, v.language) == Staged(b.base, v.language, EditOf(b.pending, v.language), Modified(v))
    ensures forall l :: l != v.language ==> EditOf(r.pending, l) == EditOf(b.pending, l)
  {
    var l := v.language;
    if SetRedundant(b.base, v) then
      TermBuilder(b.base, TermUpdate(b.pending.modified - {l}, b.pending.removed - {l}))
    else
      TermBuilder(b.base, TermUpdate(b.pending.modified[l := v], b.pending.removed - {l}))
  }

  function RemoveTerm(b: TermBuilder, l: string): (r: TermBuilder)
    requires Valid(b.pending)
    ensures r.base == b.base && Valid(r.pending)
    ensures EditOf(r.pending, l) == Staged(b.base, l, EditOf(b.pending, l), Removed)
    ensures forall l' :: l' != l ==> EditOf(r.pending, l') == EditOf(b.pending, l')
  {
    if RemoveRedundant(b.base, l) then
      TermBuilder(b.base, TermUpdate(b.pending.modified - {l}, b.pending.removed - {l}))
    else
      TermBuilder(b.base, TermUpdate(b.pending.modified - {l}, b.pending.removed + {l}))
  }

  /**
   * Merges another update into the builder: each of its modified terms is
   * set and each of its removed languages is removed, with baseline elision.
   * The update's languages are disjoint, so the edits commute and the merge
   * is given language by language.
   */
  function ApplyTerms(b: TermBuilder, u: TermUpdate): (r: TermBuilder)
    requires Valid(b.pending) && Valid(u)
    ensures r.base == b.base && Valid(r.pending)
    ensures forall l :: EditOf(r.pending, l) == Staged(b.base, l, EditOf(b.pending, l), EditOf(u, l))
  {
    var kept := map l | l in b.pending.modified && l !in u.modified && l !in u.removed :: b.pending.modified[l];
    var set' := map l | l in u.modified && !SetRedundant(b.base, u.modified[l]) :: u.modified[l];
    var removed := (b.pending.removed - u.modified.Keys - u.removed)
      + (set l | l in u.removed && !RemoveRedundant(b.base, l));
    TermBuilder(b.base, TermUpdate(kept + set', removed))
  }

  function Build(b: TermBuilder): (u: TermUpdate)
    requires Valid(b.pending)
    ensures Valid(u)
    ensures forall l :: EditOf(u, l) == EditOf(b.pending, l)
  {
    b.pending
  }

  /** A builder without a baseline stages a merged update exactly as it is. */
  lemma BlindMergeIsVerbatim(u: TermUpdate)
    requires Valid(u)
    ensures Build(ApplyTerms(Create(), u)) == u
  {
    var r := ApplyTerms(Create(), u);
    forall l ensures EditOf(r.pending, l) == EditOf(u, l) { }
    EditsDetermineUpdate(r.pending, u);
  }

  /**
   * A builder with a baseline stages a merged update exactly as it is if and
   * only if none of its edits reproduces the baseline.
   */
  lemma BaseMergeDropsOnlyRedundant(terms: map<string, MonolingualText>, u: TermUpdate)
    requires Valid(u)
    ensures Build(ApplyTerms(ForTerms(terms), u)) == u <==> Reduced(TermBuilder(Some(terms), u))
  {
    var r := ApplyTerms(ForTerms(terms), u);
    ApplyTermsKeepsReduced(ForTerms(terms), u);
    if Reduced(TermBuilder(Some(terms), u)) {
      forall l ensures EditOf(r.pending, l) == EditOf(u, l) {
        if l in u.modified {
          assert !SetRedundant(Some(terms), u.modified[l]);
        } else if l in u.removed {
          assert !RemoveRedundant(Some(terms), l);
        }
      }
      EditsDetermineUpdate(r.pending, u);
    }
  }

  // ---------------------------------------------------------------------
  // Merge equals sequential replay
  // ---------------------------------------------------------------------

  /** One call on the builder: setTerm or removeTerm. */
  datatype TermOp = SetOp(term: MonolingualText) | RemoveOp(language: string)

  function OpLanguage(op: TermOp): (l: string)
  {
    match op
    case SetOp(v) => v.language
    case RemoveOp(l) => l
  }

  function OpEdit(op: TermOp): (e: TermEdit)
  {
    match op
    case SetOp(v) => Modified(v)
    case RemoveOp(_) => Removed
  }

  function Step(b: TermBuilder, op: TermOp): (r: TermBuilder)
    requires Valid(b.pending)
    ensures r.base == b.base && Valid(r.pending)
  {
    match op
    case SetOp(v) => SetTerm(b, v)
    case RemoveOp(l) => RemoveTerm(b, l)
  }

  function Replay(b: TermBuilder, ops: seq<TermOp>): (r: TermBuilder)
    requires Valid(b.pending)
    ensures r.base == b.base && Valid(r.pending)
    decreases |ops|
  {
    if ops == [] then b else Replay(Step(b, ops[0]), ops[1..])
  }

  function OpLanguages(ops: seq<TermOp>): (r: set<string>)
    decreases |ops|
  {
    if ops == [] then {} else {OpLanguage(ops[0])} + OpLanguages(ops[1..])
  }

  /**
   * `ops` lists the entries of `u` once each, in some order: one call per
   * touched language, each the call that reproduces u's edit for it.
   */
  predicate Enumerates(ops: seq<TermOp>, u: TermUpdate)
  {
    && OpLanguages(ops) == u.modified.Keys + u.removed
    && (forall i, j :: 0 <= i < j < |ops| ==> OpLanguage(ops[i]) != OpLanguage(ops[j]))
    && (forall i :: 0 <= i < |ops| ==> OpEdit(ops[i]) == EditOf(u, OpLanguage(ops[i])))
  }

  function Without(u: TermUpdate, l: string): (r: TermUpdate)
  {
    TermUpdate(u.modified - {l}, u.removed - {l})
  }

  lemma {:induction false} OpLanguagesMember(ops: seq<TermOp>, l: string)
    requires l in OpLanguages(ops)
    ensures exists i :: 0 <= i < |ops| && OpLanguage(ops[i]) == l
    decreases |ops|
  {
    if OpLanguage(ops[0]) != l {
      OpLanguagesMember(ops[1..], l);
      var i :| 0 <= i < |ops[1..]| && OpLanguage(ops[1..][i]) == l;
      assert OpLanguage(ops[i + 1]) == l;
    }
  }

  lemma EnumeratesTail(ops: seq<TermOp>, u: TermUpdate)
    requires Valid(u) && Enumerates(ops, u) && ops != []
    ensures Valid(Without(u, OpLanguage(ops[0])))
    ensures Enumerates(ops[1..], Without(u, OpLanguage(ops[0])))
  {
    var l := OpLanguage(ops[0]);
    var u' := Without(u, l);
    forall l' | l' in OpLanguages(ops[1..])
      ensures l' != l
    {
      OpLanguagesMember(ops[1..], l');
      var i :| 0 <= i < |ops[1..]| && OpLanguage(ops[1..][i]) == l';
      assert OpLanguage(ops[i + 1]) == l';
    }
    assert OpLanguages(ops[1..]) == u'.modified.Keys + u'.removed;
    forall i | 0 <= i < |ops[1..]|
      ensures OpEdit(ops[1..][i]) == EditOf(u', OpLanguage(ops[1..][i]))
    {
      assert ops[1..][i] == ops[i + 1];
      assert OpLanguage(ops[i + 1]) != l;
    }
  }

  /** Merging an update gives the same builder as calling setTerm/removeTerm for its entries, in any order. */
  lemma {:induction false} ApplyTermsIsReplay(b: TermBuilder, u: TermUpdate, ops: seq<TermOp>)
    requires Valid(b.pending) && Valid(u) && Enumerates(ops, u)
    ensures Replay(b, ops) == ApplyTerms(b, u)
    decreases |ops|
  {
    var r := ApplyTerms(b, u);
    if ops == [] {
      forall l
        ensures EditOf(b.pending, l) == EditOf(r.pending, l)
      {
        assert l !in u.modified && l !in u.removed;
      }
      EditsDetermineUpdate(b.pending, r.pending);
    } else {
      var op := ops[0];
      var l := OpLanguage(op);
      var u' := Without(u, l);
      EnumeratesTail(ops, u);
      var b' := Step(b, op);
      ApplyTermsIsReplay(b', u', ops[1..]);
      var r' := ApplyTerms(b', u');
      forall l'
        ensures EditOf(r'.pending, l') == EditOf(r.pending, l')
      {
        if l' == l {
          assert EditOf(u', l) == Untouched;
          assert OpEdit(op) == EditOf(u, l);
        } else {
          assert EditOf(u', l') == EditOf(u, l');
        }
      }
      EditsDetermineUpdate(r'.pending, r.pending);
    }
  }

  // ---------------------------------------------------------------------
  // Elision never changes what the update does to the baseline
  // ---------------------------------------------------------------------

  /**
   * Whatever the builder drops, the merged update does to the baseline (or,
   * without a baseline, to any terms at all) exactly what the staged edits
   * followed by `u` would do.
   */
  lemma ApplyTermsPreservesEffect(b: TermBuilder, u: TermUpdate, terms: map<string, MonolingualText>)
    requires Valid(b.pending) && Valid(u)
    requires b.base.Some? ==> terms == b.base.value
    ensures ApplyToTerms(terms, Build(ApplyTerms(b, u))) == ApplyToTerms(ApplyToTerms(terms, Build(b)), u)
  {
    var r := Build(ApplyTerms(b, u));
    var lhs := ApplyToTerms(terms, r);
    var rhs := ApplyToTerms(ApplyToTerms(terms, Build(b)), u);
    forall l
      ensures Get(lhs, l) == Get(rhs, l)
    {
      ApplyToTermsPointwise(terms, r, l);
      ApplyToTermsPointwise(terms, Build(b), l);
      ApplyToTermsPointwise(ApplyToTerms(terms, Build(b)), u, l);
    }
    assert lhs.Keys == rhs.Keys by {
      forall l ensures l in lhs <==> l in rhs {
        assert Get(lhs, l) == Get(rhs, l);
      }
    }
    forall l | l in lhs ensures lhs[l] == rhs[l] {
      assert Get(lhs, l) == Get(rhs, l);
    }
  }

  /** Against a baseline, a builder keeps only edits that change something. */
  predicate Reduced(b: TermBuilder)
  {
    b.base.Some? ==>
      && (forall l :: l in b.pending.modified ==> !SetRedundant(b.base, b.pending.modified[l]))
      && (forall l :: l in b.pending.removed ==> !RemoveRedundant(b.base, l))
  }

  lemma ApplyTermsKeepsReduced(b: TermBuilder, u: TermUpdate)
    requires Valid(b.pending) && Valid(u) && Reduced(b)
    ensures Reduced(ApplyTerms(b, u))
  {
    var r := ApplyTerms(b, u);
    forall l | l in r.pending.modified
      ensures !SetRedundant(b.base, r.pending.modified[l])
    {
      assert EditOf(r.pending, l) == Staged(b.base, l, EditOf(b.pending, l), EditOf(u, l));
    }
    forall l | l in r.pending.removed
      ensures !RemoveRedundant(b.base, l)
    {
      assert EditOf(r.pending, l) == Staged(b.base, l, EditOf(b.pending, l), EditOf(u, l));
    }
  }
}
