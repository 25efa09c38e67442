/** Pages, their exact identity, and what they weigh against a byte budget. */
module Pages {

  /** A page instance.  Page ids alone are not an identity after an authoritative rewrite. */
  datatype PageTuple = PageTuple(
    id: string, version: nat, session: string, digest: string, compiler: string, scopeEpoch: nat)

  datatype Page = Page(
    id: string, version: nat, session: string, digest: string, compiler: string, scopeEpoch: nat,
    embeddingSpace: string, scope: string, branch: string, commit: string,
    summary: string, body: string, refs: seq<string>, paths: seq<string>,
    staleRevision: nat, accessCount: nat, stale: bool, invalidated: bool)
  {
    function Tuple(): PageTuple {
      PageTuple(id, version, session, digest, compiler, scopeEpoch)
    }

    /** Retained bytes, the logical weight charged against every cap. */
    function Size(): nat {
      |id| + |session| + |digest| + |compiler| + |embeddingSpace| + |branch| + |commit| + |scope|
      + |summary| + |body| + Lengths(refs) + Lengths(paths)
    }

    predicate Materialized() {
      body != "" || summary != ""
    }

    predicate Usable() {
      !stale && !invalidated
    }

    predicate Bodyless() {
      body == "" && summary == "" && refs == []
    }

    /** The page stripped to metadata, as ghosts and shadows keep it. */
    function Metadata(): Page {
      this.(body := "", summary := "", refs := [])
    }
  }

  function Lengths(ss: seq<string>): nat {
    if ss == [] then 0 else |ss[0]| + Lengths(ss[1..])
  }

  /** Clearing the body never makes a page heavier. */
  lemma MetadataIsNoHeavier(p: Page)
    ensures p.Metadata().Size() <= p.Size()
    ensures p.Metadata().Tuple() == p.Tuple() && p.Metadata().Bodyless()
  {
  }

  /** The resident copy still is the caller's exact representation.  An expected page with no
      identity of its own is compared by contents only. */
  predicate CurrentMatches(resident: Page, expected: Page) {
    && ((expected.version == 0 && expected.session == "" && expected.digest == "" && expected.compiler == ""
         && expected.scopeEpoch == 0) || resident.Tuple() == expected.Tuple())
    && resident.body == expected.body && resident.summary == expected.summary
    && resident.scope == expected.scope && resident.branch == expected.branch && resident.commit == expected.commit
    && resident.refs == expected.refs && resident.paths == expected.paths
  }

  /** What a fault serves from a page: its body, or its summary when there is no body. */
  function ServeableText(p: Page): string {
    if p.body != "" then p.body else p.summary
  }
}
