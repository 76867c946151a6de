/**
 * The item and property update builders: choosing the builder from an
 * entity id or base document, the item-only site-link staging, and building
 * an item update.
 */
module UpdateBuilders {
  import opened Wrappers
  import opened Entities
  import opened TermedBuilder
  import T = TermUpdates
  import S = SiteLinks

  /** An item builder stages site links on top of the shared term state; a property builder does not. */
  datatype Builder =
    | ItemBuilder(terms: TermedState, siteLinks: S.SiteLinkUpdate)
    | PropertyBuilder(terms: TermedState)

  predicate ValidBuilder(b: Builder)
  {
    && ValidState(b.terms)
    && Reduced(b.terms)
    && (b.ItemBuilder? ==> S.Valid(b.siteLinks))
  }

  /** Kinds that have an update builder in this family. */
  predicate Supported(kind: EntityKind)
  {
    kind == Item || kind == Property
  }

  /** The builder of the id's kind, with nothing staged. */
  function NewBuilder(id: EntityId, base: Option<Document>): (b: Builder)
    requires Supported(id.kind)
    ensures ValidBuilder(b) && b.terms == Initial(id, base)
    ensures b.ItemBuilder? <==> id.kind == Item
    ensures b.ItemBuilder? ==> b.siteLinks == S.EmptySiteLinks
  {
    if id.kind == Item then ItemBuilder(Initial(id, base), S.EmptySiteLinks)
    else PropertyBuilder(Initial(id, base))
  }

  /**
   * A builder for an entity id, without a base revision: item ids get an
   * item builder, property ids a property builder, any other kind and any
   * placeholder id are rejected.
   */
  function ForEntityId(id: EntityId): (r: Result<Builder, Error>)
    ensures r.Success? <==> Supported(id.kind) && !IsPlaceholder(id)
    ensures !Supported(id.kind) ==> r == Failure(InvalidArgument(UnrecognizedIdType))
    ensures Supported(id.kind) && IsPlaceholder(id) ==> r == Failure(InvalidArgument(PlaceholderRejected))
    ensures r.Success? ==> ValidBuilder(r.value) && (r.value.ItemBuilder? <==> id.kind == Item)
    ensures r.Success? ==> r.value.terms.entityId == id && r.value.terms.base.None?
  {
    if !Supported(id.kind) then Failure(InvalidArgument(UnrecognizedIdType))
    else if IsPlaceholder(id) then Failure(InvalidArgument(PlaceholderRejected))
    else Success(NewBuilder(id, None))
  }

  /**
   * A builder for a base revision: item documents get an item builder,
   * property documents a property builder, other documents and documents
   * with a placeholder id are rejected. The document is kept as baseline.
   */
  function ForBaseRevision(doc: Document): (r: Result<Builder, Error>)
    ensures r.Success? <==> Supported(doc.id.kind) && !IsPlaceholder(doc.id)
    ensures !Supported(doc.id.kind) ==> r == Failure(InvalidArgument(UnrecognizedDocumentType))
    ensures Supported(doc.id.kind) && IsPlaceholder(doc.id) ==> r == Failure(InvalidArgument(PlaceholderRejected))
    ensures r.Success? ==> ValidBuilder(r.value) && (r.value.ItemBuilder? <==> doc.id.kind == Item)
    ensures r.Success? ==> r.value.terms.entityId == doc.id && r.value.terms.base == Some(doc)
  {
    if !Supported(doc.id.kind) then Failure(InvalidArgument(UnrecognizedDocumentType))
    else if IsPlaceholder(doc.id) then Failure(InvalidArgument(PlaceholderRejected))
    else Success(NewBuilder(doc.id, Some(doc)))
  }

  function WithTerms(b: Builder, t: TermedState): (r: Builder)
  {
    match b
    case ItemBuilder(_, links) => ItemBuilder(t, links)
    case PropertyBuilder(_) => PropertyBuilder(t)
  }

  /** Description changes on a builder of either kind; site links are not touched. */
  function UpdateBuilderDescriptions(b: Builder, u: T.TermUpdate): (r: Builder)
    requires ValidBuilder(b) && T.Valid(u)
    ensures ValidBuilder(r) && r.terms == UpdateDescriptions(b.terms, u)
    ensures r.ItemBuilder? == b.ItemBuilder? && (r.ItemBuilder? ==> r.siteLinks == b.siteLinks)
  {
    UpdateDescriptionsKeepsReduced(b.terms, u);
    WithTerms(b, UpdateDescriptions(b.terms, u))
  }

  /** Alias changes on a builder of either kind; a rejected list leaves the builder as it was. */
  function SetBuilderAliases(b: Builder, l: string, texts: seq<string>): (r: Result<Builder, Error>)
    requires ValidBuilder(b)
    ensures r.Failure? <==> SetAliases(b.terms, l, texts).Failure?
    ensures r.Failure? ==> r.error == SetAliases(b.terms, l, texts).error
    ensures r.Success? ==> ValidBuilder(r.value) && r.value.terms == SetAliases(b.terms, l, texts).value
    ensures r.Success? ==> r.value.ItemBuilder? == b.ItemBuilder? && (r.value.ItemBuilder? ==> r.value.siteLinks == b.siteLinks)
  {
    var t :- SetAliases(b.terms, l, texts);
    SetAliasesKeepsReduced(b.terms, l, texts);
    Success(WithTerms(b, t))
  }

  /**
   * Adds or replaces a site link. It is staged even when the base revision
   * already has the same link: site links are not compared with the base.
   */
  function SetBuilderSiteLink(b: Builder, link: SiteLink): (r: Builder)
    requires b.ItemBuilder? && ValidBuilder(b)
    ensures r.ItemBuilder? && ValidBuilder(r) && r.terms == b.terms
    ensures link.siteKey in r.siteLinks.modified && r.siteLinks.modified[link.siteKey] == link
    ensures link.siteKey !in r.siteLinks.removed
    ensures forall k :: k != link.siteKey ==>
      Get(r.siteLinks.modified, k) == Get(b.siteLinks.modified, k) && (k in r.siteLinks.removed <==> k in b.siteLinks.removed)
  {
    ItemBuilder(b.terms, S.SetSiteLink(b.siteLinks, link))
  }

  /** Removes a site link, overriding any earlier change for its site key. */
  function RemoveBuilderSiteLink(b: Builder, site: string): (r: Builder)
    requires b.ItemBuilder? && ValidBuilder(b)
    ensures r.ItemBuilder? && ValidBuilder(r) && r.terms == b.terms
    ensures site in r.siteLinks.removed && site !in r.siteLinks.modified
    ensures forall k :: k != site ==>
      Get(r.siteLinks.modified, k) == Get(b.siteLinks.modified, k) && (k in r.siteLinks.removed <==> k in b.siteLinks.removed)
  {
    ItemBuilder(b.terms, S.RemoveSiteLink(b.siteLinks, site))
  }

  /** Merges a built update into a builder of either kind; site links are not touched. */
  method ApplyUpdate(b: Builder, u: TermedUpdate) returns (r: Builder)
    requires ValidBuilder(b) && MergeableUpdate(u)
    ensures ValidBuilder(r) && r.ItemBuilder? == b.ItemBuilder?
    ensures r.terms.entityId == b.terms.entityId && r.terms.base == b.terms.base
    ensures r.terms.labels == b.terms.labels && r.terms.statements == b.terms.statements
    ensures r.ItemBuilder? ==> r.siteLinks == b.siteLinks
    ensures r.terms.descriptions == UpdateDescriptions(b.terms, u.descriptions).descriptions
    ensures r.terms.aliases == MergedAliases(b.terms.base, b.terms.aliases, u.aliases)
  {
    var t := Apply(b.terms, u);
    r := WithTerms(b, t);
  }

  /** An immutable item update: the term and statement part plus the site-link changes. */
  datatype ItemUpdate = ItemUpdate(termed: TermedUpdate, modifiedSiteLinks: set<SiteLink>, removedSiteLinks: set<string>)

  /**
   * The item update holding exactly the builder's staged changes; the
   * builder itself is a value and stays as it was.
   */
  function Build(b: Builder): (r: ItemUpdate)
    requires b.ItemBuilder? && ValidBuilder(b)
    ensures WellFormedUpdate(r.termed) && MergeableUpdate(r.termed)
    ensures r.termed.entityId == b.terms.entityId && r.termed.baseRevision == b.terms.base
    ensures r.termed.labels == b.terms.labels && r.termed.descriptions == b.terms.descriptions
    ensures r.termed.aliases == b.terms.aliases && r.termed.statements == b.terms.statements
    ensures forall link :: link in r.modifiedSiteLinks <==>
      link.siteKey in b.siteLinks.modified && b.siteLinks.modified[link.siteKey] == link
    ensures r.removedSiteLinks == b.siteLinks.removed
    ensures forall link :: link in r.modifiedSiteLinks ==> link.siteKey !in r.removedSiteLinks
  {
    var t := b.terms;
    ItemUpdate(
      TermedUpdate(t.entityId, t.base, t.labels, t.descriptions, t.aliases, t.statements),
      b.siteLinks.modified.Values,
      b.siteLinks.removed)
  }
}
