/**
 * The state shared by item and property update builders and the operations
 * on it that the termed-document builder defines: accumulating description
 * changes, staging alias lists, and merging a built update back in.
 */
module TermedBuilder {
  import opened Wrappers
  import opened Entities
  import opened Aliases
  import T = TermUpdates

  /**
   * A builder's staged changes. Labels and statements are staged by the
   * labeled-document builder, which this model does not cover; here they
   * are only carried.
   */
  datatype TermedState = TermedState(
    entityId: EntityId,
    base: Option<Document>,
    labels: T.TermUpdate,
    descriptions: T.TermUpdate,
    aliases: map<string, seq<MonolingualText>>,
    statements: StatementUpdate)

  /** An immutable update of an item's or property's terms and statements. */
  datatype TermedUpdate = TermedUpdate(
    entityId: EntityId,
    baseRevision: Option<Document>,
    labels: T.TermUpdate,
    descriptions: T.TermUpdate,
    aliases: map<string, seq<MonolingualText>>,
    statements: StatementUpdate)

  /** Each staged alias list is tagged with its language and has no repeated text. */
  predicate AliasesWellFormed(aliases: map<string, seq<MonolingualText>>)
  {
    forall l :: l in aliases ==> TaggedWith(aliases[l], l) && Distinct(Texts(aliases[l]))
  }

  predicate ValidState(t: TermedState)
  {
    T.Valid(t.labels) && T.Valid(t.descriptions) && AliasesWellFormed(t.aliases)
  }

  /** No alias list of the update repeats a text: `apply` would otherwise fail in setAliases. */
  predicate AliasTextsDistinct(aliases: map<string, seq<MonolingualText>>)
  {
    forall l :: l in aliases ==> Distinct(Texts(aliases[l]))
  }

  /** What `apply` needs of an update: disjoint description changes and alias lists without repeated text. */
  predicate MergeableUpdate(u: TermedUpdate)
  {
    T.Valid(u.descriptions) && AliasTextsDistinct(u.aliases)
  }

  /** What every built update satisfies: valid term updates and language-tagged, duplicate-free alias lists. */
  predicate WellFormedUpdate(u: TermedUpdate)
  {
    T.Valid(u.labels) && T.Valid(u.descriptions) && AliasesWellFormed(u.aliases)
  }

  /** A fresh state for an entity id, optionally with a base revision. */
  function Initial(id: EntityId, base: Option<Document>): (t: TermedState)
    ensures ValidState(t) && Reduced(t)
    ensures t.entityId == id && t.base == base
    ensures t.descriptions == T.EmptyTermUpdate && t.aliases == map[]
  {
    TermedState(id, base, T.EmptyTermUpdate, T.EmptyTermUpdate, map[], EmptyStatements)
  }

  // ---------------------------------------------------------------------
  // Descriptions
  // ---------------------------------------------------------------------

  /** The baseline descriptions, when a base revision is known. */
  function DescriptionBase(t: TermedState): (r: Option<map<string, MonolingualText>>)
  {
    if t.base.Some? then Some(t.base.value.descriptions) else None
  }

  /**
   * Accumulates description changes: a term builder seeded with the base
   * descriptions (or none) receives the staged descriptions and then the new
   * update, and its result replaces the staged descriptions.
   */
  function UpdateDescriptions(t: TermedState, u: T.TermUpdate): (r: TermedState)
    requires ValidState(t) && T.Valid(u)
    ensures ValidState(r)
    ensures r.(descriptions := t.descriptions) == t
    ensures forall l ::
      T.EditOf(r.descriptions, l)
      == T.Staged(DescriptionBase(t), l, T.Staged(DescriptionBase(t), l, T.Untouched, T.EditOf(t.descriptions, l)), T.EditOf(u, l))
    // without a base revision, changes accumulate and the later call wins per language
    ensures t.base.None? ==> r.descriptions.removed == (t.descriptions.removed - u.modified.Keys) + u.removed
    ensures t.base.None? ==> r.descriptions.modified == (t.descriptions.modified - u.removed) + u.modified
    // with a base revision, setting the base value is dropped and a genuine removal kept
    ensures forall l :: l in u.modified && T.SetRedundant(DescriptionBase(t), u.modified[l]) ==>
      l !in r.descriptions.modified && l !in r.descriptions.removed
    ensures forall l :: l in u.removed && t.base.Some? && l in t.base.value.descriptions ==> l in r.descriptions.removed
  {
    var start := if t.base.Some? then T.ForTerms(t.base.value.descriptions) else T.Create();
    var combined := T.ApplyTerms(start, t.descriptions);
    var combined' := T.ApplyTerms(combined, u);
    var r := t.(descriptions := T.Build(combined'));
    assert t.base.None? ==> r.descriptions.removed == (t.descriptions.removed - u.modified.Keys) + u.removed by {
      if t.base.None? {
        forall l ensures l in r.descriptions.removed <==> l in (t.descriptions.removed - u.modified.Keys) + u.removed {
          assert T.EditOf(r.descriptions, l) == T.Staged(None, l, T.Staged(None, l, T.Untouched, T.EditOf(t.descriptions, l)), T.EditOf(u, l));
        }
      }
    }
    assert t.base.None? ==> r.descriptions.modified == (t.descriptions.modified - u.removed) + u.modified by {
      if t.base.None? {
        var m := (t.descriptions.modified - u.removed) + u.modified;
        forall l ensures Get(r.descriptions.modified, l) == Get(m, l) {
          assert T.EditOf(r.descriptions, l) == T.Staged(None, l, T.Staged(None, l, T.Untouched, T.EditOf(t.descriptions, l)), T.EditOf(u, l));
        }
        assert r.descriptions.modified.Keys == m.Keys by {
          forall l ensures l in r.descriptions.modified <==> l in m {
            assert Get(r.descriptions.modified, l) == Get(m, l);
          }
        }
        forall l | l in m ensures r.descriptions.modified[l] == m[l] {
          assert Get(r.descriptions.modified, l) == Get(m, l);
        }
      }
    }
    r
  }

  /**
   * The accumulated descriptions do to the base descriptions (or, without a
   * base, to any descriptions) what the earlier staged changes followed by
   * the new update would do: dropping redundant edits changes nothing.
   */
  lemma UpdateDescriptionsEffect(t: TermedState, u: T.TermUpdate, terms: map<string, MonolingualText>)
    requires ValidState(t) && T.Valid(u)
    requires t.base.Some? ==> terms == t.base.value.descriptions
    ensures T.ApplyToTerms(terms, UpdateDescriptions(t, u).descriptions)
         == T.ApplyToTerms(T.ApplyToTerms(terms, t.descriptions), u)
  {
    var start := if t.base.Some? then T.ForTerms(t.base.value.descriptions) else T.Create();
    var combined := T.ApplyTerms(start, t.descriptions);
    T.ApplyTermsPreservesEffect(start, t.descriptions, terms);
    assert T.ApplyToTerms(terms, T.Build(start)) == terms;
    T.ApplyTermsPreservesEffect(combined, u, terms);
  }

  // ---------------------------------------------------------------------
  // Aliases
  // ---------------------------------------------------------------------

  /**
   * A new alias list for a language is redundant when it equals the base
   * revision's list (order matters), or when the base has no aliases in the
   * language and the new list is empty.
   */
  predicate AliasRedundant(base: Option<Document>, l: string, values: seq<MonolingualText>)
  {
    && base.Some?
    && (Get(base.value.aliases, l) == Some(values) || (l !in base.value.aliases && values == []))
  }

  /** Both states agree on everything but their staged aliases. */
  predicate SameExceptAliases(a: TermedState, b: TermedState)
  {
    a.entityId == b.entityId && a.base == b.base && a.labels == b.labels
    && a.descriptions == b.descriptions && a.statements == b.statements
  }

  /**
   * Replaces the staged alias list of a language. Fails, changing nothing,
   * when a string repeats; drops the staged entry when the list reproduces
   * the base revision.
   */
  function SetAliases(t: TermedState, l: string, texts: seq<string>): (r: Result<TermedState, Error>)
    requires ValidState(t)
    ensures r.Failure? <==> !Distinct(texts)
    ensures r.Failure? ==> r.error == InvalidArgument(AliasesNotUnique)
    ensures r.Success? ==> ValidState(r.value) && SameExceptAliases(r.value, t)
    ensures r.Success? ==> forall l' :: l' != l ==> Get(r.value.aliases, l') == Get(t.aliases, l')
    ensures r.Success? && t.base.None? ==>
      l in r.value.aliases && r.value.aliases[l] == AliasValues(texts, l)
    ensures r.Success? && t.base.Some? ==>
      (l !in r.value.aliases <==>
        (Get(t.base.value.aliases, l) == Some(AliasValues(texts, l))
         || (l !in t.base.value.aliases && texts == [])))
    ensures r.Success? && l in r.value.aliases ==> r.value.aliases[l] == AliasValues(texts, l)
  {
    UniqueBySetSize(texts);
    if |ElementSet(texts)| != |texts| then
      Failure(InvalidArgument(AliasesNotUnique))
    else
      var values := AliasValues(texts, l);
      AliasValuesShape(texts, l);
      TextsOfAliasValues(texts, l);
      if AliasRedundant(t.base, l, values) then
        Success(t.(aliases := t.aliases - {l}))
      else
        Success(t.(aliases := t.aliases[l := values]))
  }

  /** Staging a second list for a language discards the first: it neither appends nor remembers it. */
  lemma SetAliasesLastCallWins(t: TermedState, l: string, xs: seq<string>, ys: seq<string>)
    requires ValidState(t) && Distinct(xs)
    ensures SetAliases(t, l, xs).Success?
    ensures SetAliases(SetAliases(t, l, xs).value, l, ys) == SetAliases(t, l, ys)
  {
    var t1 := SetAliases(t, l, xs).value;
    var r1 := SetAliases(t1, l, ys);
    var r2 := SetAliases(t, l, ys);
    if r1.Success? {
      forall l' ensures Get(r1.value.aliases, l') == Get(r2.value.aliases, l') {
      }
      GetExtensional(r1.value.aliases, r2.value.aliases);
    }
  }

  // ---------------------------------------------------------------------
  // Merging a built update
  // ---------------------------------------------------------------------

  /**
   * An incoming alias list as `apply` stages it: its texts, tagged again
   * with the language it is filed under.
   */
  function Retagged(vs: seq<MonolingualText>, l: string): (r: seq<MonolingualText>)
  {
    AliasValues(Texts(vs), l)
  }

  /**
   * The staged aliases after merging `incoming` into `pending`: each incoming
   * language's list, retagged, replaces the staged one unless it reproduces
   * the base revision, in which case the language is left untouched.
   */
  function MergedAliases(base: Option<Document>, pending: map<string, seq<MonolingualText>>,
                         incoming: map<string, seq<MonolingualText>>): (r: map<string, seq<MonolingualText>>)
  {
    map l | l in pending.Keys + incoming.Keys && !(l in incoming && AliasRedundant(base, l, Retagged(incoming[l], l)))
      :: if l in incoming then Retagged(incoming[l], l) else pending[l]
  }

  function Restrict(m: map<string, seq<MonolingualText>>, keys: set<string>): (r: map<string, seq<MonolingualText>>)
  {
    map l | l in m && l in keys :: m[l]
  }

  /** The staged alias list of one language after a merge. */
  lemma MergedAliasesAt(base: Option<Document>, pending: map<string, seq<MonolingualText>>,
                        incoming: map<string, seq<MonolingualText>>, l: string)
    ensures Get(MergedAliases(base, pending, incoming), l)
         == if l !in incoming then Get(pending, l)
            else if AliasRedundant(base, l, Retagged(incoming[l], l)) then None
            else Some(Retagged(incoming[l], l))
  {
  }

  lemma MergeNothing(base: Option<Document>, pending: map<string, seq<MonolingualText>>,
                     incoming: map<string, seq<MonolingualText>>)
    requires incoming == map[]
    ensures MergedAliases(base, pending, incoming) == pending
  {
    forall l ensures Get(MergedAliases(base, pending, incoming), l) == Get(pending, l) {
      MergedAliasesAt(base, pending, incoming, l);
    }
    GetExtensional(MergedAliases(base, pending, incoming), pending);
  }

  lemma RestrictAll(m: map<string, seq<MonolingualText>>)
    ensures Restrict(m, m.Keys) == m
  {
  }

  /** One more language of the incoming update merged through setAliases. */
  lemma MergeStep(t: TermedState, s: TermedState, u: map<string, seq<MonolingualText>>, done: set<string>, l: string)
    requires ValidState(s) && AliasTextsDistinct(u) && l in u && l !in done && done <= u.Keys
    requires s.aliases == MergedAliases(t.base, t.aliases, Restrict(u, done)) && s.base == t.base
    ensures SetAliases(s, l, Texts(u[l])).Success?
    ensures SetAliases(s, l, Texts(u[l])).value.aliases == MergedAliases(t.base, t.aliases, Restrict(u, done + {l}))
  {
    var r := SetAliases(s, l, Texts(u[l])).value;
    var before := Restrict(u, done);
    var after := Restrict(u, done + {l});
    var m := MergedAliases(t.base, t.aliases, after);
    forall l' ensures Get(r.aliases, l') == Get(m, l') {
      MergedAliasesAt(t.base, t.aliases, after, l');
      if l' != l {
        MergedAliasesAt(t.base, t.aliases, before, l');
        assert (l' in after <==> l' in before) && (l' in after ==> after[l'] == before[l']);
      } else {
        assert after[l] == u[l];
      }
    }
    GetExtensional(r.aliases, m);
  }

  /** A merge keeps the staged aliases free of lists that reproduce the base revision. */
  lemma MergeKeepsReduced(base: Option<Document>, pending: map<string, seq<MonolingualText>>,
                          incoming: map<string, seq<MonolingualText>>)
    requires forall l :: l in pending ==> !AliasRedundant(base, l, pending[l])
    ensures forall l :: l in MergedAliases(base, pending, incoming) ==>
      !AliasRedundant(base, l, MergedAliases(base, pending, incoming)[l])
  {
    var m := MergedAliases(base, pending, incoming);
    forall l | l in m ensures !AliasRedundant(base, l, m[l]) {
      MergedAliasesAt(base, pending, incoming, l);
    }
  }

  lemma ReducedAfterMerge(t: TermedState, u: TermedUpdate, r: TermedState)
    requires ValidState(t) && Reduced(t) && MergeableUpdate(u) && r.base == t.base
    requires r.descriptions == UpdateDescriptions(t, u.descriptions).descriptions
    requires r.aliases == MergedAliases(t.base, t.aliases, u.aliases)
    ensures Reduced(r)
  {
    UpdateDescriptionsKeepsReduced(t, u.descriptions);
    MergeKeepsReduced(t.base, t.aliases, u.aliases);
  }

  /** The alias loop of `apply`: each incoming list, as texts, goes through setAliases. */
  method StageAliasLists(s: TermedState, incoming: map<string, seq<MonolingualText>>) returns (r: TermedState)
    requires ValidState(s) && AliasTextsDistinct(incoming)
    ensures ValidState(r) && SameExceptAliases(r, s)
    ensures r.aliases == MergedAliases(s.base, s.aliases, incoming)
  {
    r := s;
    MergeNothing(s.base, s.aliases, Restrict(incoming, {}));
    var todo := incoming.Keys;
    ghost var done: set<string> := {};
    while todo != {}
      invariant done !! todo && done + todo == incoming.Keys
      invariant ValidState(r) && SameExceptAliases(r, s)
      invariant r.aliases == MergedAliases(s.base, s.aliases, Restrict(incoming, done))
      decreases todo
    {
      var l :| l in todo;
      MergeStep(s, r, incoming, done, l);
      r := SetAliases(r, l, Texts(incoming[l])).value;
      todo := todo - {l};
      done := done + {l};
    }
    assert done == incoming.Keys;
    RestrictAll(incoming);
  }

  /**
   * Merges a built update: its descriptions go through the description
   * accumulation and each of its alias lists, as texts, through setAliases,
   * so edits that reproduce the base revision are dropped here as well.
   */
  method Apply(t: TermedState, u: TermedUpdate) returns (r: TermedState)
    requires ValidState(t) && MergeableUpdate(u)
    ensures ValidState(r)
    ensures Reduced(t) ==> Reduced(r)
    ensures r.entityId == t.entityId && r.base == t.base && r.labels == t.labels && r.statements == t.statements
    ensures r.descriptions == UpdateDescriptions(t, u.descriptions).descriptions
    ensures r.aliases == MergedAliases(t.base, t.aliases, u.aliases)
  {
    var d := UpdateDescriptions(t, u.descriptions);
    r := StageAliasLists(d, u.aliases);
    if Reduced(t) {
      ReducedAfterMerge(t, u, r);
    }
  }

  /**
   * Without a base revision, merging keeps every staged language and adds the
   * incoming ones, and the incoming list, retagged, wins where both have one.
   * A list already tagged with its language is staged as it is.
   */
  lemma MergeWithoutBase(pending: map<string, seq<MonolingualText>>, incoming: map<string, seq<MonolingualText>>)
    ensures MergedAliases(None, pending, incoming).Keys == pending.Keys + incoming.Keys
    ensures forall l :: l in incoming ==> MergedAliases(None, pending, incoming)[l] == Retagged(incoming[l], l)
    ensures forall l :: l in incoming && TaggedWith(incoming[l], l) ==> MergedAliases(None, pending, incoming)[l] == incoming[l]
    ensures forall l :: l in pending && l !in incoming ==> MergedAliases(None, pending, incoming)[l] == pending[l]
  {
    forall l | l in incoming && TaggedWith(incoming[l], l)
      ensures Retagged(incoming[l], l) == incoming[l]
    {
      AliasValuesOfTexts(incoming[l], l);
    }
  }

  /**
   * Merging a built update into a fresh builder without a base revision
   * stages exactly that update's descriptions and aliases again.
   */
  lemma ApplyToFreshBuilder(id: EntityId, u: TermedUpdate)
    requires WellFormedUpdate(u)
    ensures MergeableUpdate(u)
    ensures UpdateDescriptions(Initial(id, None), u.descriptions).descriptions == u.descriptions
    ensures MergedAliases(None, map[], u.aliases) == u.aliases
  {
    var r := UpdateDescriptions(Initial(id, None), u.descriptions).descriptions;
    assert r.modified == u.descriptions.modified by {
      assert r.modified == (map[] - u.descriptions.removed) + u.descriptions.modified;
    }
    MergeWithoutBase(map[], u.aliases);
    forall l ensures Get(MergedAliases(None, map[], u.aliases), l) == Get(u.aliases, l) {
    }
    GetExtensional(MergedAliases(None, map[], u.aliases), u.aliases);
  }

  /** Against a base revision, no staged description or alias reproduces it. */
  predicate Reduced(t: TermedState)
  {
    && T.Reduced(T.TermBuilder(DescriptionBase(t), t.descriptions))
    && forall l :: l in t.aliases ==> !AliasRedundant(t.base, l, t.aliases[l])
  }

  lemma UpdateDescriptionsKeepsReduced(t: TermedState, u: T.TermUpdate)
    requires ValidState(t) && T.Valid(u) && Reduced(t)
    ensures Reduced(UpdateDescriptions(t, u))
  {
    var r := UpdateDescriptions(t, u);
    var b := DescriptionBase(t);
    forall l | l in r.descriptions.modified
      ensures !T.SetRedundant(b, r.descriptions.modified[l])
    {
      assert T.EditOf(r.descriptions, l) == T.Staged(b, l, T.Staged(b, l, T.Untouched, T.EditOf(t.descriptions, l)), T.EditOf(u, l));
    }
    forall l | l in r.descriptions.removed
      ensures !T.RemoveRedundant(b, l)
    {
      assert T.EditOf(r.descriptions, l) == T.Staged(b, l, T.Staged(b, l, T.Untouched, T.EditOf(t.descriptions, l)), T.EditOf(u, l));
    }
  }

  lemma SetAliasesKeepsReduced(t: TermedState, l: string, texts: seq<string>)
    requires ValidState(t) && Reduced(t) && SetAliases(t, l, texts).Success?
    ensures Reduced(SetAliases(t, l, texts).value)
  {
  }
}
