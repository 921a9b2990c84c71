/** Rows of the memory store and the transactions that change them.

    Every transaction of the store is one atomic step. Row identifiers come from a random generator;
    here the caller hands each step the identifier that the generator produced, and `issued`
    remembers every identifier ever produced, so that "never produced before" can be said. A query
    that returns rows in an order the database is free to choose takes that order as an argument. */
module Records {
  import opened Prelude

  type Id = string

  /** A namespace: an owner and a workspace. The empty workspace is the owner's global scope. */
  datatype Key = Key(user: string, workspace: string)

  datatype Status = Active | Superseded | Disputed | Deleting | Other(name: string)

  /** What a memory says, after redaction and hashing. */
  datatype Content = Content(scope: string, kind: string, text: string, hash: string,
                             confidence: int, importance: int, trust: string)

  datatype Record = Record(key: Key, content: Content, status: Status,
                           validFrom: int, validUntil: Option<int>,
                           observedAt: int, supersededAt: Option<int>, supersededBy: Option<Id>,
                           branch: Option<Id>, parent: Option<Id>, verifiedAt: Option<int>,
                           createdAt: int, updatedAt: int)

  datatype Namespace = Namespace(version: nat, activeBranch: Option<Id>, activeSnapshot: Option<Id>)

  datatype Snapshot = Snapshot(key: Key, version: nat, manifest: set<Id>)

  datatype Branch = Branch(key: Key, name: string, fromSnapshot: Option<Id>, merged: bool)

  datatype State = State(records: map<Id, Record>, snapshots: map<Id, Snapshot>,
                         branches: map<Id, Branch>, namespaces: map<Key, Namespace>,
                         issued: set<Id>)

  datatype Error = NotFound | NotActive | BlankText | SelfSupersede | ForeignKey | DuplicateName | BadStrategy

  const EMPTY := State(map[], map[], map[], map[], {})
  const NEW_NAMESPACE := Namespace(0, None, None)
  const HIGH_TRUST := {"user_directive", "verified_system_fact", "tool_result"}

  function NamespaceOf(s: State, key: Key): Namespace {
    if key in s.namespaces then s.namespaces[key] else NEW_NAMESPACE
  }

  /** Rows visible from a namespace: its own and the owner's global ones. */
  predicate InScope(key: Key, row: Key) {
    row.user == key.user && (row.workspace == "" || row.workspace == key.workspace)
  }

  predicate OnMain(r: Record) {
    r.branch.None?
  }

  /** The ownership check of every mutation that names a row. */
  predicate Owns(s: State, key: Key, id: Id) {
    id in s.records && s.records[id].key == key
  }
}
