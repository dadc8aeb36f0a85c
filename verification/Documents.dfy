/** BSON values, documents with their reserved fields, and replicated mutations. */
module Documents {
  import opened Wrappers
  import opened Orders
  import Revisions

  datatype Float = NaN | Number(value: real)

  /** `Other` stands for the value kinds that no modelled operation looks into. */
  datatype Bson =
    | Null
    | Boolean(flag: bool)
    | Int32(int32: int)
    | Int64(int64: int)
    | Double(double: Float)
    | String(text: string)
    | DateTime(millis: int)
    | Array(items: seq<Bson>)
    | Document(fields: Document)
    | Other(kind: string, printed: string)

  type Document = map<string, Bson>

  const ID: string := "_id"
  const REV: string := "_rev"
  const DELETED: string := "_deleted"
  const CONFLICTS: string := "_conflicts"
  const UPDATED_AT: string := "_updated_at"
  const SOURCE_NODE: string := "_source_node"

  /** `is_deleted`: only a boolean true counts. */
  predicate IsDeleted(d: Document) {
    DELETED in d && d[DELETED] == Boolean(true)
  }

  /** The `_rev` of a document, or the initial revision when there is none that parses. */
  function RevisionOf(d: Document): (s: string)
    ensures Revisions.Valid(s)
  {
    InitialValid();
    if REV in d && d[REV].String? && Revisions.Valid(d[REV].text) then d[REV].text else Revisions.INITIAL
  }

  function ReadingOf(d: Document): Revisions.Reading {
    Revisions.Parse(RevisionOf(d))
  }

  lemma InitialValid()
    ensures Revisions.Valid(Revisions.INITIAL)
    ensures Revisions.Parse(Revisions.INITIAL) == Revisions.Reading(0, 0, "3040")
  {
    var r := Revisions.Reading(0, 0, "3040");
    Revisions.PrintParse(r);
    assert Revisions.Decimal(0) == "0";
    assert Revisions.Print(r) == Revisions.INITIAL;
  }

  /** What the last-writer-wins rule compares. */
  function CompareRevisions(a: Document, b: Document): Ordering {
    Revisions.CompareReading(ReadingOf(a), ReadingOf(b))
  }

  function ConflictList(d: Document): seq<Bson> {
    if CONFLICTS in d && d[CONFLICTS].Array? then d[CONFLICTS].items else []
  }

  /** A document without the record of the versions it beat. */
  function Bare(d: Document): Document {
    d - {CONFLICTS}
  }

  /** A document id together with its printed form. */
  datatype DocumentId = DocumentId(value: Bson, text: string)

  datatype MutationOp = Insert | Update | Delete

  datatype Metadata = Metadata(
    namespace: string, tenantId: string, kind: string, source: string, actor: string, lineage: string,
    schemaVersion: nat, trustScore: Float, createdAt: int, updatedAt: int)

  datatype Mutation = Mutation(
    op: MutationOp, collection: string, docId: DocumentId, patch: Option<Document>,
    seqNo: nat, timestamp: int, rev: string, writeId: string, metadata: Metadata)

  /** `MutationMetadata::validate`. */
  predicate ValidMetadata(m: Metadata) {
    && m.namespace != "" && m.tenantId != "" && m.kind != ""
    && m.source != "" && m.actor != "" && m.lineage != ""
    && m.schemaVersion >= 1
    && m.trustScore.Number? && 0.0 <= m.trustScore.value <= 1.0
    && m.createdAt <= m.updatedAt
  }
}
