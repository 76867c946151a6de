/**
 * The concrete scenarios of the builder tests, stated as lemmas about the model.
 */
module Scenarios {
  import opened Wrappers
  import opened Entities
  import opened Aliases
  import opened TermedBuilder
  import opened UpdateBuilders
  import T = TermUpdates

  const Q1 := EntityId(Item, "Q1")
  const P1 := EntityId(Property, "P1")
  const M1 := EntityId(MediaInfo, "M1")

  function ItemDoc(descriptions: map<string, MonolingualText>, aliases: map<string, seq<MonolingualText>>): Document
  {
    Document(Q1, map[], descriptions, aliases, map[], 0)
  }

  /** Dispatch on the id kind: item and property ids get their builders; mediainfo and placeholder ids are rejected. */
  lemma DispatchByKind()
    ensures ForEntityId(Q1).Success? && ForEntityId(Q1).value.ItemBuilder?
    ensures ForEntityId(P1).Success? && ForEntityId(P1).value.PropertyBuilder?
    ensures ForEntityId(M1) == Failure(InvalidArgument(UnrecognizedIdType))
    ensures ForEntityId(EntityId(Item, "Q0")).Failure?
    ensures ForBaseRevision(ItemDoc(map[], map[])).value.ItemBuilder?
    ensures ForBaseRevision(Document(P1, map[], map[], map[], map[], 0)).value.PropertyBuilder?
    ensures ForBaseRevision(Document(EntityId(Item, "Q0"), map[], map[], map[], map[], 0)).Failure?
  {
  }

  /** Setting a description equal to the base is dropped; removing a base description is kept. */
  lemma BaseDescriptionUpdate()
    ensures
      var doc := ItemDoc(map["en" := MonolingualText("hello", "en"), "sk" := MonolingualText("ahoj", "sk")], map[]);
      var u := T.TermUpdate(map["sk" := MonolingualText("ahoj", "sk")], {"en"});
      var r := UpdateDescriptions(Initial(Q1, Some(doc)), u);
      r.descriptions.modified == map[] && r.descriptions.removed == {"en"}
  {
    var doc := ItemDoc(map["en" := MonolingualText("hello", "en"), "sk" := MonolingualText("ahoj", "sk")], map[]);
    var u := T.TermUpdate(map["sk" := MonolingualText("ahoj", "sk")], {"en"});
    var r := UpdateDescriptions(Initial(Q1, Some(doc)), u);
    assert T.EditOf(r.descriptions, "sk") == T.Untouched;
    assert T.EditOf(r.descriptions, "en") == T.Removed;
    forall l | l != "sk" && l != "en" ensures T.EditOf(r.descriptions, l) == T.Untouched { }
    assert r.descriptions.removed == {"en"};
  }

  /** Without a base, a repeated alias is rejected, an empty list is staged, and a later list overwrites an earlier one. */
  lemma BlindAliasChanges()
    ensures SetAliases(Initial(Q1, None), "en", ["hello", "hello"]).Failure?
    ensures
      var t0 := Initial(Q1, None);
      var t1 := SetAliases(t0, "cs", []).value;
      var t2 := SetAliases(t1, "de", ["Hallo"]).value;
      var t3 := SetAliases(t2, "de", ["Guten Tag"]).value;
      t3.aliases == map["cs" := [], "de" := [MonolingualText("Guten Tag", "de")]]
  {
    var t0 := Initial(Q1, None);
    assert !Distinct(["hello", "hello"]) by {
      assert ["hello", "hello"][0] == ["hello", "hello"][1];
    }
    var t1 := SetAliases(t0, "cs", []).value;
    var t2 := SetAliases(t1, "de", ["Hallo"]).value;
    SetAliasesLastCallWins(t1, "de", ["Hallo"], ["Guten Tag"]);
    var t3 := SetAliases(t2, "de", ["Guten Tag"]).value;
    assert AliasValues(["Guten Tag"], "de") == [MonolingualText("Guten Tag", "de")];
    forall l ensures Get(t3.aliases, l) == Get(map["cs" := [], "de" := [MonolingualText("Guten Tag", "de")]], l) { }
    GetExtensional(t3.aliases, map["cs" := [], "de" := [MonolingualText("Guten Tag", "de")]]);
  }

  /** The base revision of the alias test: one alias in each of five languages. */
  function AliasBase(): (doc: Document)
  {
    ItemDoc(map[], map[
      "en" := [MonolingualText("hello", "en")],
      "de" := [MonolingualText("Hallo", "de")],
      "cs" := [MonolingualText("ahoj", "cs")],
      "fr" := [MonolingualText("bonjour", "fr")],
      "es" := [MonolingualText("hola", "es")]])
  }

  /** The aliases staged by the alias test once all its calls are made. */
  function StagedAliases(): (m: map<string, seq<MonolingualText>>)
  {
    map["sk" := [MonolingualText("ahoj", "sk")], "cs" := [], "de" := [MonolingualText("Guten Tag", "de")]]
  }

  /** Against a base revision: adding, removing and modifying a language's aliases are staged. */
  lemma BaseAliasEdits()
    ensures
      var t0 := Initial(Q1, Some(AliasBase()));
      var t1 := SetAliases(t0, "sk", ["ahoj"]).value;
      var t2 := SetAliases(t1, "cs", []).value;
      SetAliases(t2, "de", ["Guten Tag"]).value.aliases == StagedAliases()
  {
    var t0 := Initial(Q1, Some(AliasBase()));
    var t1 := SetAliases(t0, "sk", ["ahoj"]).value;
    var t2 := SetAliases(t1, "cs", []).value;
    var t3 := SetAliases(t2, "de", ["Guten Tag"]).value;
    assert AliasValues(["ahoj"], "sk") == [MonolingualText("ahoj", "sk")];
    assert AliasValues(["Guten Tag"], "de") == [MonolingualText("Guten Tag", "de")];
    forall l ensures Get(t3.aliases, l) == Get(StagedAliases(), l) { }
    GetExtensional(t3.aliases, StagedAliases());
  }

  /**
   * Against the same base revision: clearing a language the base lacks and
   * restating a language's base list leave the staged aliases as they were.
   */
  lemma BaseAliasNoOps(t: TermedState)
    requires ValidState(t) && t.base == Some(AliasBase()) && t.aliases == StagedAliases()
    ensures SetAliases(SetAliases(t, "pl", []).value, "es", ["hola"]).value.aliases == StagedAliases()
  {
    var t1 := SetAliases(t, "pl", []).value;
    var t2 := SetAliases(t1, "es", ["hola"]).value;
    assert AliasValues(["hola"], "es") == [MonolingualText("hola", "es")];
    forall l ensures Get(t2.aliases, l) == Get(t.aliases, l) { }
    GetExtensional(t2.aliases, t.aliases);
  }

  /**
   * Against the alias test's base revision: staging a list and then the
   * language's base list again (a reverted modification, removal or
   * addition) leaves the staged aliases as they were.
   */
  lemma BaseAliasRevert(t: TermedState, l: string, edit: seq<string>, original: seq<string>)
    requires ValidState(t) && t.base == Some(AliasBase()) && l !in t.aliases
    requires Distinct(edit) && Distinct(original)
    requires
      if l in AliasBase().aliases then AliasBase().aliases[l] == AliasValues(original, l)
      else original == []
    ensures
      var t1 := SetAliases(t, l, edit).value;
      SetAliases(t1, l, original).value.aliases == t.aliases
  {
    var t1 := SetAliases(t, l, edit).value;
    var t2 := SetAliases(t1, l, original).value;
    forall l' ensures Get(t2.aliases, l') == Get(t.aliases, l') { }
    GetExtensional(t2.aliases, t.aliases);
  }

  /** The alias test's reverted modification of its English aliases. */
  lemma RevertedModification(t: TermedState)
    requires ValidState(t) && t.base == Some(AliasBase()) && t.aliases == StagedAliases()
    ensures SetAliases(SetAliases(t, "en", ["hi"]).value, "en", ["hello"]).value.aliases == StagedAliases()
  {
    assert AliasValues(["hello"], "en") == [MonolingualText("hello", "en")];
    BaseAliasRevert(t, "en", ["hi"], ["hello"]);
  }

  /** The alias test's reverted removal of its French aliases. */
  lemma RevertedRemoval(t: TermedState)
    requires ValidState(t) && t.base == Some(AliasBase()) && t.aliases == StagedAliases()
    ensures SetAliases(SetAliases(t, "fr", []).value, "fr", ["bonjour"]).value.aliases == StagedAliases()
  {
    assert AliasValues(["bonjour"], "fr") == [MonolingualText("bonjour", "fr")];
    BaseAliasRevert(t, "fr", [], ["bonjour"]);
  }

  /** The alias test's reverted addition of Greek aliases, which the base lacks. */
  lemma RevertedAddition(t: TermedState)
    requires ValidState(t) && t.base == Some(AliasBase()) && t.aliases == StagedAliases()
    ensures SetAliases(SetAliases(t, "el", ["?"]).value, "el", []).value.aliases == StagedAliases()
  {
    BaseAliasRevert(t, "el", ["?"], []);
  }

  /**
   * Merging a second builder's update without a base revision: description
   * removals of both are kept and the alias languages of both are staged.
   */
  lemma MergeWithoutBaseRevision()
    ensures
      var t0 := SetAliases(UpdateDescriptions(Initial(Q1, None), T.TermUpdate(map[], {"fr"})), "en", ["hello"]).value;
      var other := SetAliases(UpdateDescriptions(Initial(Q1, None), T.TermUpdate(map[], {"es"})), "de", ["Hallo"]).value;
      && UpdateDescriptions(t0, other.descriptions).descriptions.removed == {"es", "fr"}
      && MergedAliases(None, t0.aliases, other.aliases)
         == map["en" := [MonolingualText("hello", "en")], "de" := [MonolingualText("Hallo", "de")]]
  {
    var t0 := SetAliases(UpdateDescriptions(Initial(Q1, None), T.TermUpdate(map[], {"fr"})), "en", ["hello"]).value;
    var other := SetAliases(UpdateDescriptions(Initial(Q1, None), T.TermUpdate(map[], {"es"})), "de", ["Hallo"]).value;
    assert AliasValues(["hello"], "en") == [MonolingualText("hello", "en")];
    assert AliasValues(["Hallo"], "de") == [MonolingualText("Hallo", "de")];
    var expected := map["en" := [MonolingualText("hello", "en")], "de" := [MonolingualText("Hallo", "de")]];
    assert t0.aliases == map["en" := [MonolingualText("hello", "en")]] by {
      forall l ensures Get(t0.aliases, l) == Get(map["en" := [MonolingualText("hello", "en")]], l) { }
      GetExtensional(t0.aliases, map["en" := [MonolingualText("hello", "en")]]);
    }
    assert other.aliases == map["de" := [MonolingualText("Hallo", "de")]] by {
      forall l ensures Get(other.aliases, l) == Get(map["de" := [MonolingualText("Hallo", "de")]], l) { }
      GetExtensional(other.aliases, map["de" := [MonolingualText("Hallo", "de")]]);
    }
    forall l ensures Get(MergedAliases(None, t0.aliases, other.aliases), l) == Get(expected, l) {
      MergedAliasesAt(None, t0.aliases, other.aliases, l);
    }
    GetExtensional(MergedAliases(None, t0.aliases, other.aliases), expected);
  }
}
