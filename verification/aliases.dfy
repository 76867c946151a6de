/**
 * Alias lists: the uniqueness check `setAliases` performs and the conversion
 * between alias strings and language-tagged alias values.
 */
module Aliases {
  import opened Entities

  /** No string occurs twice in the list (exact, case-sensitive comparison). */
  predicate Distinct(xs: seq<string>)
  {
    forall i, j :: 0 <= i < j < |xs| ==> xs[i] != xs[j]
  }

  /** The strings of a list collected into a hash set. */
  function ElementSet(xs: seq<string>): (s: set<string>)
    ensures forall x :: x in s <==> x in xs
    decreases |xs|
  {
    if xs == [] then {} else {xs[0]} + ElementSet(xs[1..])
  }

  /** A list is duplicate-free exactly when its head is not in its tail and its tail is duplicate-free. */
  lemma DistinctCons(xs: seq<string>)
    requires xs != []
    ensures Distinct(xs) <==> xs[0] !in xs[1..] && Distinct(xs[1..])
  {
    var tail := xs[1..];
    if Distinct(xs) {
      forall i, j | 0 <= i < j < |tail| ensures tail[i] != tail[j] {
        assert tail[i] == xs[i + 1] && tail[j] == xs[j + 1];
      }
      forall j | 0 <= j < |tail| ensures tail[j] != xs[0] {
        assert tail[j] == xs[j + 1];
      }
    }
    if xs[0] !in tail && Distinct(tail) {
      forall i, j | 0 <= i < j < |xs| ensures xs[i] != xs[j] {
        assert xs[j] == tail[j - 1];
        if i > 0 {
          assert xs[i] == tail[i - 1];
        }
      }
    }
  }

  /**
   * The check the builder performs, comparing the size of the hash set of
   * aliases with the size of the list, succeeds exactly when no alias repeats.
   */
  lemma {:induction false} UniqueBySetSize(xs: seq<string>)
    ensures |ElementSet(xs)| <= |xs|
    ensures |ElementSet(xs)| == |xs| <==> Distinct(xs)
    decreases |xs|
  {
    if xs != [] {
      var tail := xs[1..];
      UniqueBySetSize(tail);
      DistinctCons(xs);
      if xs[0] in ElementSet(tail) {
        assert ElementSet(xs) == ElementSet(tail);
      } else {
        assert |ElementSet(xs)| == |ElementSet(tail)| + 1;
      }
    }
  }

  /** The alias values built from strings for one language, one per string and in order. */
  function AliasValues(texts: seq<string>, language: string): (vs: seq<MonolingualText>)
    decreases |texts|
  {
    if texts == [] then [] else [MonolingualText(texts[0], language)] + AliasValues(texts[1..], language)
  }

  /** The strings of a list of alias values, as `apply` extracts them. */
  function Texts(vs: seq<MonolingualText>): (texts: seq<string>)
    decreases |vs|
  {
    if vs == [] then [] else [vs[0].text] + Texts(vs[1..])
  }

  /** Every value of the list is tagged with the language. */
  predicate TaggedWith(vs: seq<MonolingualText>, language: string)
  {
    forall i :: 0 <= i < |vs| ==> vs[i].language == language
  }

  /** Building values keeps length and order, and tags every value with the language. */
  lemma {:induction false} AliasValuesShape(texts: seq<string>, language: string)
    ensures |AliasValues(texts, language)| == |texts|
    ensures TaggedWith(AliasValues(texts, language), language)
    ensures forall i :: 0 <= i < |texts| ==> AliasValues(texts, language)[i] == MonolingualText(texts[i], language)
    decreases |texts|
  {
    if texts != [] {
      AliasValuesShape(texts[1..], language);
    }
  }

  /** Extracting the strings of freshly built values gives back the strings. */
  lemma {:induction false} TextsOfAliasValues(texts: seq<string>, language: string)
    ensures Texts(AliasValues(texts, language)) == texts
    decreases |texts|
  {
    if texts != [] {
      TextsOfAliasValues(texts[1..], language);
    }
  }

  /** Rebuilding values from their strings gives back a list already tagged with the language. */
  lemma {:induction false} AliasValuesOfTexts(vs: seq<MonolingualText>, language: string)
    requires TaggedWith(vs, language)
    ensures AliasValues(Texts(vs), language) == vs
    decreases |vs|
  {
    if vs != [] {
      assert vs[0].language == language;
      assert TaggedWith(vs[1..], language) by {
        forall i | 0 <= i < |vs[1..]| ensures vs[1..][i].language == language {
          assert vs[1..][i] == vs[i + 1];
        }
      }
      AliasValuesOfTexts(vs[1..], language);
    }
  }
}
