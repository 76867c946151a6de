/**
 * Site-link changes staged by the item update builder: a map of new or
 * replacement links and a set of removed site keys, kept disjoint. Unlike
 * terms, site links are never compared with the base revision.
 */
module SiteLinks {
  import opened Wrappers
  import opened Entities

  datatype SiteLinkUpdate = SiteLinkUpdate(modified: map<string, SiteLink>, removed: set<string>)

  const EmptySiteLinks := SiteLinkUpdate(map[], {})

  /** A site key is in at most one part, and each link is stored under its own site key. */
  predicate Valid(s: SiteLinkUpdate)
  {
    && s.modified.Keys !! s.removed
    && forall k :: k in s.modified ==> s.modified[k].siteKey == k
  }

  /** Adds or replaces the link for its site key, overriding any earlier change for that key. */
  function SetSiteLink(s: SiteLinkUpdate, link: SiteLink): (r: SiteLinkUpdate)
    requires Valid(s)
    ensures Valid(r)
    ensures link.siteKey in r.modified && r.modified[link.siteKey] == link
    ensures link.siteKey !in r.removed
    ensures forall k :: k != link.siteKey ==> Get(r.modified, k) == Get(s.modified, k) && (k in r.removed <==> k in s.removed)
  {
    SiteLinkUpdate(s.modified[link.siteKey := link], s.removed - {link.siteKey})
  }

  /** Removes the link for a site key, overriding any earlier change for that key. */
  function RemoveSiteLink(s: SiteLinkUpdate, site: string): (r: SiteLinkUpdate)
    requires Valid(s)
    ensures Valid(r)
    ensures site in r.removed && site !in r.modified
    ensures forall k :: k != site ==> Get(r.modified, k) == Get(s.modified, k) && (k in r.removed <==> k in s.removed)
  {
    SiteLinkUpdate(s.modified - {site}, s.removed + {site})
  }

  /** One call on the builder's site links. */
  datatype SiteLinkOp = SetLink(link: SiteLink) | RemoveLink(site: string)

  function OpSite(op: SiteLinkOp): (k: string)
  {
    match op
    case SetLink(link) => link.siteKey
    case RemoveLink(site) => site
  }

  function Replay(s: SiteLinkUpdate, ops: seq<SiteLinkOp>): (r: SiteLinkUpdate)
    requires Valid(s)
    ensures Valid(r)
    decreases |ops|
  {
    if ops == [] then s
    else
      var s' := match ops[0]
        case SetLink(link) => SetSiteLink(s, link)
        case RemoveLink(site) => RemoveSiteLink(s, site);
      Replay(s', ops[1..])
  }

  /** The last call in `ops` on the site key, if any. */
  function LastOn(ops: seq<SiteLinkOp>, k: string): (r: Option<SiteLinkOp>)
    decreases |ops|
  {
    if ops == [] then None
    else if OpSite(ops[|ops| - 1]) == k then Some(ops[|ops| - 1])
    else LastOn(ops[..|ops| - 1], k)
  }

  /** The state of one site key: its staged link, or whether it is staged for removal. */
  predicate StateIs(s: SiteLinkUpdate, k: string, link: Option<SiteLink>, removed: bool)
  {
    Get(s.modified, k) == link && (k in s.removed <==> removed)
  }

  /**
   * Last writer wins: after any sequence of calls, a site key's state is
   * decided by the final call on it, and is as before when no call names it.
   */
  lemma {:induction false} LastWriterWins(s: SiteLinkUpdate, ops: seq<SiteLinkOp>, k: string)
    requires Valid(s)
    ensures LastOn(ops, k).None? ==> StateIs(Replay(s, ops), k, Get(s.modified, k), k in s.removed)
    ensures LastOn(ops, k).Some? && LastOn(ops, k).value.SetLink? ==>
      StateIs(Replay(s, ops), k, Some(LastOn(ops, k).value.link), false)
    ensures LastOn(ops, k).Some? && LastOn(ops, k).value.RemoveLink? ==>
      StateIs(Replay(s, ops), k, None, true)
    decreases |ops|
  {
    if ops != [] {
      var n := |ops| - 1;
      var init := ops[..n];
      ReplaySnoc(s, init, ops[n]);
      assert init + [ops[n]] == ops;
      LastWriterWins(s, init, k);
    }
  }

  /** Replaying one more call is that call applied to the replayed state. */
  lemma {:induction false} ReplaySnoc(s: SiteLinkUpdate, ops: seq<SiteLinkOp>, op: SiteLinkOp)
    requires Valid(s)
    ensures Replay(s, ops + [op]) == Replay(Replay(s, ops), [op])
    decreases |ops|
  {
    if ops == [] {
      assert ops + [op] == [op];
    } else {
      var s' := match ops[0]
        case SetLink(link) => SetSiteLink(s, link)
        case RemoveLink(site) => RemoveSiteLink(s, site);
      assert (ops + [op])[1..] == ops[1..] + [op];
      ReplaySnoc(s', ops[1..], op);
    }
  }
}
