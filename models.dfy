/**
  The tables of server/app/models.py as datatypes, the uniqueness,
  reference and ordering rules that hold between their rows, and the
  cascade that deleting a document triggers.
 */
module Models {
  import opened Outcomes
  import opened Seqs

  datatype Manufacturer = Manufacturer(
    id: int, name: string, themePrimary: Option<string>, themeSecondary: Option<string>)

  /** A user is active unless stated otherwise. */
  datatype User = User(id: int, username: string, passwordHash: string, role: string, isActive: bool := true)

  /** `uploadedAt` is a tick of the store's abstract clock. */
  datatype Document = Document(
    id: int, manufacturerId: int, title: string, originalFilename: string, storageKey: string,
    uploadedBy: int, uploadedAt: nat, revisionDate: Option<string>, tags: Option<string>)

  datatype Section = Section(
    id: int, documentId: int, headingText: string, headingLevel: string,
    pageStart: Option<int>, pageEnd: Option<int>, orderIndex: int)

  datatype Figure = Figure(
    id: int, documentId: int, sectionId: Option<int>, pageNumber: Option<int>,
    captionText: Option<string>, imageStorageKey: Option<string>, orderIndex: int)

  /** The closed vocabulary of `action_type` values the handlers write. */
  datatype Action =
    | Login | Logout | ViewDocList | UploadDoc | UpdateDoc | DeleteDoc
    | ViewSectionList | ViewSection | SearchTool
  {
    /** The string stored in the `action_type` column. */
    function Tag(): string {
      match this
      case Login => "LOGIN"
      case Logout => "LOGOUT"
      case ViewDocList => "VIEW_DOC_LIST"
      case UploadDoc => "UPLOAD_DOC"
      case UpdateDoc => "UPDATE_DOC"
      case DeleteDoc => "DELETE_DOC"
      case ViewSectionList => "VIEW_SECTION_LIST"
      case ViewSection => "VIEW_SECTION"
      case SearchTool => "SEARCH_TOOL"
    }
  }

  /** The JSON object stored in `metadata_json`, one shape per handler. */
  datatype Metadata =
    | NoMetadata
    | UsernameMeta(username: string)
    | CountMeta(count: nat)
    | UpdateMeta(title: Option<string>, revisionDate: Option<string>)
    | UploadMeta(sections: nat, figures: nat)
    | SearchMeta(query: string, count: nat)

  /** `userId` is not nullable: every audit row names the acting user. */
  datatype AuditLog = AuditLog(
    id: int, userId: int, role: string, action: Action, manufacturerId: Option<int>,
    documentId: Option<int>, sectionId: Option<int>, metadata: Metadata, createdAt: nat)

  datatype SessionToken = SessionToken(id: int, userId: int, token: string, createdAt: nat)

  // ----- Keys -----

  function UserIds(users: seq<User>): set<int> {
    set u | u in users :: u.id
  }

  function Usernames(users: seq<User>): set<string> {
    set u | u in users :: u.username
  }

  function Tokens(sessions: seq<SessionToken>): set<string> {
    set s | s in sessions :: s.token
  }

  function DocumentIds(documents: seq<Document>): set<int> {
    set d | d in documents :: d.id
  }

  /** Each section as the pair (section id, owning document id). */
  function SectionKeys(sections: seq<Section>): set<(int, int)> {
    set s | s in sections :: (s.id, s.documentId)
  }

  // ----- Constraints of the tables -----

  /** `username` is declared unique. */
  ghost predicate UniqueUsernames(users: seq<User>) {
    forall i, j :: 0 <= i < j < |users| ==> users[i].username != users[j].username
  }

  /** `name` is declared unique. */
  ghost predicate UniqueManufacturerNames(manufacturers: seq<Manufacturer>) {
    forall i, j :: 0 <= i < j < |manufacturers| ==> manufacturers[i].name != manufacturers[j].name
  }

  ghost predicate UniqueUserIds(users: seq<User>) {
    forall i, j :: 0 <= i < j < |users| ==> users[i].id != users[j].id
  }

  /** Every user id was handed out by the store's id counter. */
  ghost predicate UserIdsBelow(users: seq<User>, nextId: int) {
    forall u :: u in users ==> u.id < nextId
  }

  /** `token` is declared unique. */
  ghost predicate UniqueTokens(sessions: seq<SessionToken>) {
    forall i, j :: 0 <= i < j < |sessions| ==> sessions[i].token != sessions[j].token
  }

  ghost predicate SessionsReferenceUsers(sessions: seq<SessionToken>, users: seq<User>) {
    forall s :: s in sessions ==> s.userId in UserIds(users)
  }

  /** `user_id` is a non-null foreign key into `users`. */
  ghost predicate AuditReferencesUsers(logs: seq<AuditLog>, users: seq<User>) {
    forall a :: a in logs ==> a.userId in UserIds(users)
  }

  /** Audit rows are appended in clock order and stamped before `clock`. */
  ghost predicate Chronological(logs: seq<AuditLog>, clock: nat) {
    && (forall i, j :: 0 <= i < j < |logs| ==> logs[i].createdAt < logs[j].createdAt)
    && (forall a :: a in logs ==> a.createdAt < clock)
  }

  ghost predicate DocumentsWellFormed(documents: seq<Document>, nextId: int, clock: nat) {
    && (forall i, j :: 0 <= i < j < |documents| ==> documents[i].id != documents[j].id)
    && (forall i, j :: 0 <= i < j < |documents| ==> documents[i].uploadedAt < documents[j].uploadedAt)
    && (forall d :: d in documents ==> d.id < nextId && d.uploadedAt < clock)
  }

  /** Sections of one document appear in increasing `order_index`. */
  ghost predicate SectionsOrdered(sections: seq<Section>) {
    forall i, j :: 0 <= i < j < |sections| && sections[i].documentId == sections[j].documentId ==>
      sections[i].orderIndex < sections[j].orderIndex
  }

  ghost predicate SectionsWellFormed(sections: seq<Section>, documents: seq<Document>, nextId: int) {
    && (forall i, j :: 0 <= i < j < |sections| ==> sections[i].id != sections[j].id)
    && (forall s :: s in sections ==> s.id < nextId && s.documentId in DocumentIds(documents))
    && SectionsOrdered(sections)
  }

  /** Figures of one document appear in increasing `order_index`. */
  ghost predicate FiguresOrdered(figures: seq<Figure>) {
    forall i, j :: 0 <= i < j < |figures| && figures[i].documentId == figures[j].documentId ==>
      figures[i].orderIndex < figures[j].orderIndex
  }

  /** A figure's section, when it has one, is a section of the figure's own document. */
  ghost predicate FiguresWellFormed(figures: seq<Figure>, sections: seq<Section>, documents: seq<Document>, nextId: int) {
    && (forall i, j :: 0 <= i < j < |figures| ==> figures[i].id != figures[j].id)
    && (forall f :: f in figures ==> f.id < nextId && f.documentId in DocumentIds(documents))
    && (forall f :: f in figures && f.sectionId.Some? ==> (f.sectionId.value, f.documentId) in SectionKeys(sections))
    && FiguresOrdered(figures)
  }

  /** With unique section ids, the figures of one section all belong to one document. */
  lemma FiguresOfSectionShareDocument(figures: seq<Figure>, sections: seq<Section>, documents: seq<Document>, nextId: int, sid: int)
    requires FiguresWellFormed(figures, sections, documents, nextId)
    requires forall i, j :: 0 <= i < j < |sections| ==> sections[i].id != sections[j].id
    ensures forall f, g :: f in figures && g in figures && f.sectionId == Some(sid) && g.sectionId == Some(sid) ==>
      f.documentId == g.documentId
  {
    forall f, g | f in figures && g in figures && f.sectionId == Some(sid) && g.sectionId == Some(sid)
      ensures f.documentId == g.documentId
    {
      assert (sid, f.documentId) in SectionKeys(sections);
      assert (sid, g.documentId) in SectionKeys(sections);
      var s :| s in sections && (s.id, s.documentId) == (sid, f.documentId);
      var t :| t in sections && (t.id, t.documentId) == (sid, g.documentId);
      var i :| 0 <= i < |sections| && sections[i] == s;
      var j :| 0 <= j < |sections| && sections[j] == t;
      assert i == j;
    }
  }

  // ----- The whole database -----

  /** The rows of every table, with the id counter and the clock kept beside them. */
  datatype Tables = Tables(
    manufacturers: seq<Manufacturer>, users: seq<User>, sessions: seq<SessionToken>, auditLogs: seq<AuditLog>,
    documents: seq<Document>, sections: seq<Section>, figures: seq<Figure>, nextId: int, clock: nat)

  /**
    Every constraint of the tables holds at once. Some are declared on the
    tables (unique names, tokens and keys, the foreign keys); the others
    (audit rows in time order, ids and `order_index` increasing, a figure's
    section in the figure's own document) hold because the handlers only
    ever write rows that keep them.
   */
  ghost predicate Consistent(t: Tables) {
    // declared on the tables
    && UniqueManufacturerNames(t.manufacturers)
    && UniqueUsernames(t.users) && UniqueUserIds(t.users)
    && UniqueTokens(t.sessions) && SessionsReferenceUsers(t.sessions, t.users)
    && AuditReferencesUsers(t.auditLogs, t.users)
    // kept by the handlers; the last two mix foreign keys with orderings
    && UserIdsBelow(t.users, t.nextId) && Chronological(t.auditLogs, t.clock)
    && DocumentsWellFormed(t.documents, t.nextId, t.clock)
    && SectionsWellFormed(t.sections, t.documents, t.nextId)
    && FiguresWellFormed(t.figures, t.sections, t.documents, t.nextId)
  }

  // ----- Appending rows -----

  /** A row stamped with the current clock keeps the audit log chronological once the clock advances. */
  lemma AppendAudit(logs: seq<AuditLog>, users: seq<User>, clock: nat, row: AuditLog)
    requires AuditReferencesUsers(logs, users) && Chronological(logs, clock)
    requires row.userId in UserIds(users) && row.createdAt == clock
    ensures AuditReferencesUsers(logs + [row], users) && Chronological(logs + [row], clock + 1)
  {
    var all := logs + [row];
    forall i, j | 0 <= i < j < |all| ensures all[i].createdAt < all[j].createdAt {
      if j == |logs| { assert all[i] in logs; }
    }
  }

  /** A document that takes the next id and the current clock keeps the documents well formed. */
  lemma AppendDocument(documents: seq<Document>, nextId: int, clock: nat, doc: Document, nextId': int, clock': nat)
    requires DocumentsWellFormed(documents, nextId, clock)
    requires doc.id == nextId < nextId' && doc.uploadedAt == clock < clock'
    ensures DocumentsWellFormed(documents + [doc], nextId', clock')
    ensures doc.id !in DocumentIds(documents)
  {
    var all := documents + [doc];
    forall i, j | 0 <= i < j < |all| ensures all[i].id != all[j].id && all[i].uploadedAt < all[j].uploadedAt {
      if j == |documents| { assert all[i] in documents; }
    }
  }

  /**
    The sections of a new document, with fresh increasing ids and increasing
    `order_index`, keep the sections well formed.
   */
  lemma AppendDocumentSections(sections: seq<Section>, documents: seq<Document>, nextId: int,
                               doc: Document, rows: seq<Section>, lo: int, hi: int, nextId': int)
    requires SectionsWellFormed(sections, documents, nextId)
    requires doc.id !in DocumentIds(documents) && nextId <= lo <= hi <= nextId'
    requires forall r :: r in rows ==> r.documentId == doc.id && lo <= r.id < hi
    requires forall i, j :: 0 <= i < j < |rows| ==> rows[i].id < rows[j].id && rows[i].orderIndex < rows[j].orderIndex
    ensures SectionsWellFormed(sections + rows, documents + [doc], nextId')
  {
    var all := sections + rows;
    var n := |sections|;
    forall i, j | 0 <= i < j < |all|
      ensures all[i].id != all[j].id
      ensures all[i].documentId == all[j].documentId ==> all[i].orderIndex < all[j].orderIndex
    {
      if j >= n {
        assert all[j] == rows[j - n] && all[j] in rows;
        if i >= n {
          assert all[i] == rows[i - n];
        } else {
          assert all[i] in sections;
        }
      }
    }
    forall s | s in all ensures s.id < nextId' && s.documentId in DocumentIds(documents + [doc]) {
      if s in sections {
        var d :| d in documents && d.id == s.documentId;
        assert d in documents + [doc];
      } else {
        assert doc in documents + [doc];
      }
    }
  }

  /**
    The figures of a new document, with fresh increasing ids, increasing
    `order_index` and sections taken from the new document's own sections,
    keep the figures well formed.
   */
  lemma AppendDocumentFigures(figures: seq<Figure>, sections: seq<Section>, documents: seq<Document>, nextId: int,
                              doc: Document, sectionRows: seq<Section>, rows: seq<Figure>, lo: int, hi: int, nextId': int)
    requires FiguresWellFormed(figures, sections, documents, nextId)
    requires doc.id !in DocumentIds(documents) && nextId <= lo <= hi <= nextId'
    requires forall f :: f in rows ==> f.documentId == doc.id && lo <= f.id < hi
    requires forall f :: f in rows && f.sectionId.Some? ==> (f.sectionId.value, doc.id) in SectionKeys(sectionRows)
    requires forall i, j :: 0 <= i < j < |rows| ==> rows[i].id < rows[j].id && rows[i].orderIndex < rows[j].orderIndex
    ensures FiguresWellFormed(figures + rows, sections + sectionRows, documents + [doc], nextId')
  {
    var all := figures + rows;
    var n := |figures|;
    forall i, j | 0 <= i < j < |all|
      ensures all[i].id != all[j].id
      ensures all[i].documentId == all[j].documentId ==> all[i].orderIndex < all[j].orderIndex
    {
      if j >= n {
        assert all[j] == rows[j - n] && all[j] in rows;
        if i >= n {
          assert all[i] == rows[i - n];
        } else {
          assert all[i] in figures;
        }
      }
    }
    forall f | f in all ensures f.id < nextId' && f.documentId in DocumentIds(documents + [doc]) {
      if f in figures {
        var d :| d in documents && d.id == f.documentId;
        assert d in documents + [doc];
      } else {
        assert doc in documents + [doc];
      }
    }
    forall f | f in all && f.sectionId.Some? ensures (f.sectionId.value, f.documentId) in SectionKeys(sections + sectionRows) {
      var key := (f.sectionId.value, f.documentId);
      if f in figures {
        var s :| s in sections && (s.id, s.documentId) == key;
        assert s in sections + sectionRows;
      } else {
        var s :| s in sectionRows && (s.id, s.documentId) == key;
        assert s in sections + sectionRows;
      }
    }
  }

  // ----- Cascade of db.delete(document) -----

  function DocumentsAfterDelete(documents: seq<Document>, documentId: int): seq<Document> {
    Filter(documents, (d: Document) => d.id != documentId)
  }

  /** `Document.sections` cascades with delete-orphan. */
  function SectionsAfterDelete(sections: seq<Section>, documentId: int): seq<Section> {
    Filter(sections, (s: Section) => s.documentId != documentId)
  }

  function DeletedSectionIds(sections: seq<Section>, documentId: int): set<int> {
    set s | s in sections && s.documentId == documentId :: s.id
  }

  /**
    `Document.figures` and `Section.figures` both cascade: a figure goes when
    its document goes or when its section goes.
   */
  function FiguresAfterDelete(figures: seq<Figure>, sections: seq<Section>, documentId: int): seq<Figure> {
    var gone := DeletedSectionIds(sections, documentId);
    Filter(figures, (f: Figure) => f.documentId != documentId && !(f.sectionId.Some? && f.sectionId.value in gone))
  }

  /**
    After the cascade no row refers to the deleted document or to one of its
    sections, and every other row stays.
   */
  lemma DeleteCascades(documents: seq<Document>, sections: seq<Section>, figures: seq<Figure>, documentId: int)
    ensures documentId !in DocumentIds(DocumentsAfterDelete(documents, documentId))
    ensures forall d :: d in DocumentsAfterDelete(documents, documentId) <==> d in documents && d.id != documentId
    ensures forall s :: s in SectionsAfterDelete(sections, documentId) <==> s in sections && s.documentId != documentId
    ensures forall f :: f in FiguresAfterDelete(figures, sections, documentId) ==>
      f in figures && f.documentId != documentId
      && !(f.sectionId.Some? && f.sectionId.value in DeletedSectionIds(sections, documentId))
  {
  }

  /** With unique section ids, a figure of another document never points into the deleted one. */
  lemma OtherFiguresKeepTheirSections(figures: seq<Figure>, sections: seq<Section>, documents: seq<Document>, nextId: int, documentId: int)
    requires SectionsWellFormed(sections, documents, nextId)
    requires FiguresWellFormed(figures, sections, documents, nextId)
    ensures forall f :: f in figures && f.documentId != documentId ==>
      !(f.sectionId.Some? && f.sectionId.value in DeletedSectionIds(sections, documentId))
  {
    var gone := DeletedSectionIds(sections, documentId);
    forall f | f in figures && f.documentId != documentId
      ensures !(f.sectionId.Some? && f.sectionId.value in gone)
    {
      if f.sectionId.Some? && f.sectionId.value in gone {
        assert false;
      }
    }
  }

  lemma DocumentsAfterDeleteWellFormed(documents: seq<Document>, documentId: int, nextId: int, clock: nat)
    requires DocumentsWellFormed(documents, nextId, clock)
    ensures DocumentsWellFormed(DocumentsAfterDelete(documents, documentId), nextId, clock)
  {
    var keep := (d: Document) => d.id != documentId;
    FilterKeepsOrder(documents, keep, (a: Document, b: Document) => a.id != b.id);
    FilterKeepsOrder(documents, keep, (a: Document, b: Document) => a.uploadedAt < b.uploadedAt);
  }

  lemma SectionsAfterDeleteWellFormed(sections: seq<Section>, documents: seq<Document>, documentId: int, nextId: int)
    requires SectionsWellFormed(sections, documents, nextId)
    ensures SectionsWellFormed(SectionsAfterDelete(sections, documentId), DocumentsAfterDelete(documents, documentId), nextId)
  {
    var docs' := DocumentsAfterDelete(documents, documentId);
    var secs' := SectionsAfterDelete(sections, documentId);
    var keep := (s: Section) => s.documentId != documentId;
    FilterKeepsOrder(sections, keep, (a: Section, b: Section) => a.id != b.id);
    FilterKeepsOrder(sections, keep,
      (a: Section, b: Section) => a.documentId == b.documentId ==> a.orderIndex < b.orderIndex);
    forall s | s in secs' ensures s.documentId in DocumentIds(docs') {
      var d :| d in documents && d.id == s.documentId;
      assert d in docs';
    }
  }

  lemma FiguresAfterDeleteWellFormed(figures: seq<Figure>, sections: seq<Section>, documents: seq<Document>, documentId: int, nextId: int)
    requires SectionsWellFormed(sections, documents, nextId)
    requires FiguresWellFormed(figures, sections, documents, nextId)
    ensures forall f :: f in FiguresAfterDelete(figures, sections, documentId) <==> f in figures && f.documentId != documentId
    ensures FiguresWellFormed(FiguresAfterDelete(figures, sections, documentId),
      SectionsAfterDelete(sections, documentId), DocumentsAfterDelete(documents, documentId), nextId)
  {
    var docs' := DocumentsAfterDelete(documents, documentId);
    var secs' := SectionsAfterDelete(sections, documentId);
    var figs' := FiguresAfterDelete(figures, sections, documentId);
    var gone := DeletedSectionIds(sections, documentId);
    var keep := (f: Figure) => f.documentId != documentId && !(f.sectionId.Some? && f.sectionId.value in gone);
    OtherFiguresKeepTheirSections(figures, sections, documents, nextId, documentId);
    FilterKeepsOrder(figures, keep, (a: Figure, b: Figure) => a.id != b.id);
    FilterKeepsOrder(figures, keep,
      (a: Figure, b: Figure) => a.documentId == b.documentId ==> a.orderIndex < b.orderIndex);
    forall f | f in figs' ensures f.documentId in DocumentIds(docs') {
      var d :| d in documents && d.id == f.documentId;
      assert d in docs';
    }
    forall f | f in figs' && f.sectionId.Some? ensures (f.sectionId.value, f.documentId) in SectionKeys(secs') {
      var s :| s in sections && (s.id, s.documentId) == (f.sectionId.value, f.documentId);
      assert s in secs';
    }
  }
}
