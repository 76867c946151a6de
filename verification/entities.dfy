/**
 * Entity identities, term values, site links and base revisions: the
 * collaborators the update builders read but never change.
 */
module Entities {
  import opened Wrappers

  /** The entity kinds an identifier can denote. */
  datatype EntityKind = Item | Property | Lexeme | Form | Sense | MediaInfo

  /** An entity identifier: its kind and its textual id such as "Q42". */
  datatype EntityId = EntityId(kind: EntityKind, id: string)

  /**
   * The id reserved for "entity not yet created" in each kind. The lexeme
   * value "L0" is the one the lexeme id class checks; the others follow the
   * same convention.
   */
  function PlaceholderId(kind: EntityKind): (id: string)
  {
    match kind
    case Item => "Q0"
    case Property => "P0"
    case Lexeme => "L0"
    case Form => "L0-F0"
    case Sense => "L0-S0"
    case MediaInfo => "M0"
  }

  predicate IsPlaceholder(e: EntityId)
  {
    e.id == PlaceholderId(e.kind)
  }

  /** A language-tagged text (label, description or alias). */
  datatype MonolingualText = MonolingualText(text: string, language: string)

  /** A link from an item to a page on another site, keyed by site key. */
  datatype SiteLink = SiteLink(siteKey: string, pageTitle: string, badges: seq<string>)

  /**
   * The statement part of an update. Its structure belongs to the statement
   * update builder, which this model does not cover; builders only carry it.
   */
  datatype StatementUpdate = StatementUpdate(added: seq<string>, replaced: seq<string>, removed: set<string>)

  const EmptyStatements := StatementUpdate([], [], {})

  /**
   * A base revision of an item or property: its id (which decides the
   * document kind), its terms and site links, and its revision number.
   */
  datatype Document = Document(
    id: EntityId,
    labels: map<string, MonolingualText>,
    descriptions: map<string, MonolingualText>,
    aliases: map<string, seq<MonolingualText>>,
    siteLinks: map<string, SiteLink>,
    revisionId: nat)

  /** Errors the builders signal; all correspond to IllegalArgumentException. */
  datatype Error = InvalidArgument(message: string)

  const UnrecognizedIdType := "Unrecognized entity ID type."
  const UnrecognizedDocumentType := "Unrecognized entity document type."
  // The placeholder rejection is raised by the entity update builder's
  // constructor; its message text is assumed here.
  const PlaceholderRejected := "Cannot create update for placeholder entity ID."
  const AliasesNotUnique := "Aliases must be unique."
}
