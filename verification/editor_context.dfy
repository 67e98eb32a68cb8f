/** The web editor's shared state (`PDFEditorContext`): the open document,
    its page count, the current page, the zoom factor, the annotation list
    and the editing flag, changed only through the provider's callbacks.
    Each callback is a pure transition from the previous state; the UUID and
    the ISO timestamp that `addAnnotation` takes from the runtime are
    parameters. */
module EditorContext {
  import opened Wrappers

  /** The stored-document record (`PDFDocument`). */
  datatype DocumentRecord = DocumentRecord(
    id: string, userId: string, name: string, filePath: string, fileSize: int,
    createdAt: string, updatedAt: string, thumbnailUrl: Option<string>)

  datatype AnnotationKind = TextNote | Highlight | Comment | Signature

  datatype Annotation = Annotation(
    id: string, kind: AnnotationKind, page: int,
    x: real, y: real, width: real, height: real,
    content: string, color: Option<string>, createdAt: string)

  /** What `addAnnotation` is given: an annotation without id and timestamp. */
  datatype AnnotationDraft = AnnotationDraft(
    kind: AnnotationKind, page: int,
    x: real, y: real, width: real, height: real,
    content: string, color: Option<string>)

  /** `Partial<Annotation>`: a field is `Some` when the update object has
      that key. */
  datatype AnnotationPatch = AnnotationPatch(
    id: Option<string>, kind: Option<AnnotationKind>, page: Option<int>,
    x: Option<real>, y: Option<real>, width: Option<real>, height: Option<real>,
    content: Option<string>, color: Option<Option<string>>, createdAt: Option<string>)

  datatype EditorState = EditorState(
    currentDocument: Option<DocumentRecord>,
    pages: int,
    currentPage: int,
    zoom: real,
    annotations: seq<Annotation>,
    isEditing: bool)

  const Initial := EditorState(None, 0, 1, 1.0, [], false)

  const NoChanges := AnnotationPatch(None, None, None, None, None, None, None, None, None, None)

  /** `{ ...a, ...p }`: every key present in the patch overrides, every
      other field is kept. */
  function Merge(a: Annotation, p: AnnotationPatch): (r: Annotation)
    ensures r.id == p.id.GetOr(a.id) && r.kind == p.kind.GetOr(a.kind) && r.page == p.page.GetOr(a.page)
    ensures r.x == p.x.GetOr(a.x) && r.y == p.y.GetOr(a.y)
    ensures r.width == p.width.GetOr(a.width) && r.height == p.height.GetOr(a.height)
    ensures r.content == p.content.GetOr(a.content) && r.color == p.color.GetOr(a.color)
    ensures r.createdAt == p.createdAt.GetOr(a.createdAt)
  {
    Annotation(p.id.GetOr(a.id), p.kind.GetOr(a.kind), p.page.GetOr(a.page),
               p.x.GetOr(a.x), p.y.GetOr(a.y), p.width.GetOr(a.width), p.height.GetOr(a.height),
               p.content.GetOr(a.content), p.color.GetOr(a.color), p.createdAt.GetOr(a.createdAt))
  }

  /** The new entry built by `addAnnotation`. */
  function Stamped(d: AnnotationDraft, id: string, createdAt: string): (a: Annotation)
    ensures a.id == id && a.createdAt == createdAt
    ensures a.kind == d.kind && a.page == d.page && a.content == d.content && a.color == d.color
    ensures a.x == d.x && a.y == d.y && a.width == d.width && a.height == d.height
  {
    Annotation(id, d.kind, d.page, d.x, d.y, d.width, d.height, d.content, d.color, createdAt)
  }

  /** `annotations.map(a => a.id === id ? { ...a, ...updates } : a)`. */
  function Updated(anns: seq<Annotation>, id: string, p: AnnotationPatch): (r: seq<Annotation>)
    ensures |r| == |anns|
    ensures forall i :: 0 <= i < |anns| && anns[i].id != id ==> r[i] == anns[i]
    ensures forall i :: 0 <= i < |anns| && anns[i].id == id ==> r[i] == Merge(anns[i], p)
  {
    if anns == [] then []
    else [if anns[0].id == id then Merge(anns[0], p) else anns[0]] + Updated(anns[1..], id, p)
  }

  /** `annotations.filter(a => a.id !== id)`. */
  function Removed(anns: seq<Annotation>, id: string): (r: seq<Annotation>)
    ensures |r| <= |anns|
    ensures forall i :: 0 <= i < |r| ==> r[i].id != id
    ensures forall i :: 0 <= i < |r| ==> r[i] in anns
    ensures forall a :: a in anns && a.id != id ==> a in r
  {
    if anns == [] then []
    else if anns[0].id == id then Removed(anns[1..], id)
    else [anns[0]] + Removed(anns[1..], id)
  }

  // ----- the provider's callbacks -----

  function SetCurrentDocument(s: EditorState, d: Option<DocumentRecord>): (r: EditorState)
    ensures r.currentDocument == d && r.currentPage == 1 && r.annotations == []
    ensures r.pages == s.pages && r.zoom == s.zoom && r.isEditing == s.isEditing
  {
    s.(currentDocument := d, currentPage := 1, annotations := [])
  }

  function SetPages(s: EditorState, n: int): (r: EditorState)
    ensures r.pages == n
    ensures r.currentDocument == s.currentDocument && r.currentPage == s.currentPage && r.zoom == s.zoom
    ensures r.annotations == s.annotations && r.isEditing == s.isEditing
  {
    s.(pages := n)
  }

  function SetCurrentPage(s: EditorState, page: int): (r: EditorState)
    ensures r.currentPage == page
    ensures r.currentDocument == s.currentDocument && r.pages == s.pages && r.zoom == s.zoom
    ensures r.annotations == s.annotations && r.isEditing == s.isEditing
  {
    s.(currentPage := page)
  }

  function SetZoom(s: EditorState, zoom: real): (r: EditorState)
    ensures r.zoom == zoom
    ensures r.currentDocument == s.currentDocument && r.pages == s.pages && r.currentPage == s.currentPage
    ensures r.annotations == s.annotations && r.isEditing == s.isEditing
  {
    s.(zoom := zoom)
  }

  function SetIsEditing(s: EditorState, editing: bool): (r: EditorState)
    ensures r.isEditing == editing
    ensures r.currentDocument == s.currentDocument && r.pages == s.pages && r.currentPage == s.currentPage
    ensures r.zoom == s.zoom && r.annotations == s.annotations
  {
    s.(isEditing := editing)
  }

  /** `addAnnotation`, with the fresh UUID and the timestamp as parameters. */
  function AddAnnotation(s: EditorState, d: AnnotationDraft, id: string, createdAt: string): (r: EditorState)
    ensures |r.annotations| == |s.annotations| + 1
    ensures r.annotations[..|s.annotations|] == s.annotations
    ensures r.annotations[|s.annotations|] == Stamped(d, id, createdAt)
    ensures r.(annotations := s.annotations) == s
  {
    s.(annotations := s.annotations + [Stamped(d, id, createdAt)])
  }

  function UpdateAnnotation(s: EditorState, id: string, p: AnnotationPatch): (r: EditorState)
    ensures |r.annotations| == |s.annotations|
    ensures forall i :: 0 <= i < |s.annotations| && s.annotations[i].id != id ==> r.annotations[i] == s.annotations[i]
    ensures forall i :: 0 <= i < |s.annotations| && s.annotations[i].id == id ==> r.annotations[i] == Merge(s.annotations[i], p)
    ensures r.(annotations := s.annotations) == s
  {
    s.(annotations := Updated(s.annotations, id, p))
  }

  function RemoveAnnotation(s: EditorState, id: string): (r: EditorState)
    ensures forall a :: a in r.annotations ==> a.id != id && a in s.annotations
    ensures forall a :: a in s.annotations && a.id != id ==> a in r.annotations
    ensures r.(annotations := s.annotations) == s
  {
    s.(annotations := Removed(s.annotations, id))
  }

  function ResetEditor(s: EditorState): (r: EditorState)
    ensures r.currentDocument.None? && r.pages == 0 && r.currentPage == 1
    ensures r.zoom == 1.0 && r.annotations == [] && !r.isEditing
  {
    Initial
  }

  // ----- the callbacks as one reducer -----

  datatype Action =
    | OpenDocument(doc: Option<DocumentRecord>)
    | PagesLoaded(count: int)
    | GoToPage(page: int)
    | Zoom(factor: real)
    | Annotate(draft: AnnotationDraft, newId: string, at: string)
    | Edit(id: string, patch: AnnotationPatch)
    | Delete(id: string)
    | Editing(on: bool)
    | Reset

  function Apply(s: EditorState, act: Action): EditorState
  {
    match act
    case OpenDocument(d) => SetCurrentDocument(s, d)
    case PagesLoaded(n) => SetPages(s, n)
    case GoToPage(p) => SetCurrentPage(s, p)
    case Zoom(z) => SetZoom(s, z)
    case Annotate(d, id, at) => AddAnnotation(s, d, id, at)
    case Edit(id, p) => UpdateAnnotation(s, id, p)
    case Delete(id) => RemoveAnnotation(s, id)
    case Editing(b) => SetIsEditing(s, b)
    case Reset => ResetEditor(s)
  }

  function Run(s: EditorState, acts: seq<Action>): EditorState
    decreases |acts|
  {
    if acts == [] then s else Run(Apply(s, acts[0]), acts[1..])
  }

  /** Whatever happened before, a reset followed by nothing yields exactly
      the initial state, and the history before a reset is forgotten. */
  lemma {:induction false} ResetForgetsHistory(s: EditorState, before: seq<Action>, after: seq<Action>)
    ensures Run(s, before + [Reset]) == Initial
    ensures Run(s, before + [Reset] + after) == Run(Initial, after)
    decreases |before|
  {
    if before == [] {
      assert [Reset] + after == [Reset] + after;
      assert ([] + [Reset] + after)[1..] == after;
    } else {
      assert (before + [Reset])[0] == before[0];
      assert (before + [Reset])[1..] == before[1..] + [Reset];
      assert (before + [Reset] + after)[0] == before[0];
      assert (before + [Reset] + after)[1..] == before[1..] + [Reset] + after;
      ResetForgetsHistory(Apply(s, before[0]), before[1..], after);
    }
  }

  /** The actions that touch neither the annotation list nor the current
      page: loading a page count, zooming, and toggling edit mode. */
  predicate Passive(act: Action)
  {
    act.PagesLoaded? || act.Zoom? || act.Editing?
  }

  /** A run of passive actions keeps the annotations and the current page. */
  lemma {:induction false} PassiveRunKeeps(s: EditorState, acts: seq<Action>)
    requires forall i :: 0 <= i < |acts| ==> Passive(acts[i])
    ensures Run(s, acts).annotations == s.annotations
    ensures Run(s, acts).currentPage == s.currentPage
    decreases |acts|
  {
    if acts != [] {
      PassiveRunKeeps(Apply(s, acts[0]), acts[1..]);
    }
  }

  /** Opening a document always clears the annotation list and returns to
      page 1, and any run of passive actions afterwards keeps both. */
  lemma OpenDocumentClearsAnnotations(s: EditorState, d: Option<DocumentRecord>, rest: seq<Action>)
    requires forall i :: 0 <= i < |rest| ==> Passive(rest[i])
    ensures Run(s, [OpenDocument(d)] + rest).annotations == []
    ensures Run(s, [OpenDocument(d)] + rest).currentPage == 1
  {
    assert ([OpenDocument(d)] + rest)[0] == OpenDocument(d);
    assert ([OpenDocument(d)] + rest)[1..] == rest;
    PassiveRunKeeps(SetCurrentDocument(s, d), rest);
  }

  /** The field setters touch disjoint fields, so they commute, and a
      second write to the same field wins. */
  lemma SettersCommute(s: EditorState, n: int, p: int, z: real, b: bool)
    ensures SetPages(SetZoom(s, z), n) == SetZoom(SetPages(s, n), z)
    ensures SetCurrentPage(SetIsEditing(s, b), p) == SetIsEditing(SetCurrentPage(s, p), b)
    ensures SetZoom(SetCurrentPage(s, p), z) == SetCurrentPage(SetZoom(s, z), p)
    ensures SetPages(SetPages(s, p), n) == SetPages(s, n)
    ensures SetZoom(SetZoom(s, 2.0 * z), z) == SetZoom(s, z)
  {
  }

  /** An update whose patch sets no key changes nothing. */
  lemma {:induction false} EmptyPatchIsIdentity(anns: seq<Annotation>, id: string)
    ensures Updated(anns, id, NoChanges) == anns
  {
    if anns != [] {
      EmptyPatchIsIdentity(anns[1..], id);
    }
  }

  /** Updating an id no entry carries changes nothing. */
  lemma UpdateAbsentIsIdentity(anns: seq<Annotation>, id: string, p: AnnotationPatch)
    requires forall a :: a in anns ==> a.id != id
    ensures Updated(anns, id, p) == anns
  {
  }

  /** Removing an id no entry carries changes nothing. */
  lemma {:induction false} RemoveAbsentIsIdentity(anns: seq<Annotation>, id: string)
    requires forall a :: a in anns ==> a.id != id
    ensures Removed(anns, id) == anns
  {
    if anns != [] {
      assert anns[0] in anns;
      RemoveAbsentIsIdentity(anns[1..], id);
    }
  }

  /** Removing twice is removing once. */
  lemma RemoveIdempotent(anns: seq<Annotation>, id: string)
    ensures Removed(Removed(anns, id), id) == Removed(anns, id)
  {
    RemoveAbsentIsIdentity(Removed(anns, id), id);
  }

  /** Removal is a filter: it works piecewise on a concatenation, so
      the kept entries stay in their relative order. */
  lemma {:induction false} RemoveDistributes(a: seq<Annotation>, b: seq<Annotation>, id: string)
    ensures Removed(a + b, id) == Removed(a, id) + Removed(b, id)
  {
    if a == [] {
      assert a + b == b;
    } else {
      assert (a + b)[0] == a[0];
      assert (a + b)[1..] == a[1..] + b;
      RemoveDistributes(a[1..], b, id);
    }
  }

  /** Adding an annotation under a fresh id and then removing that id
      gives back the previous list. */
  lemma RemoveUndoesAdd(s: EditorState, d: AnnotationDraft, id: string, at: string)
    requires forall a :: a in s.annotations ==> a.id != id
    ensures RemoveAnnotation(AddAnnotation(s, d, id, at), id) == s
  {
    RemoveDistributes(s.annotations, [Stamped(d, id, at)], id);
    RemoveAbsentIsIdentity(s.annotations, id);
    assert Removed([Stamped(d, id, at)], id) == [];
  }

  /** An update that keeps ids is invisible once the id is removed. */
  lemma {:induction false} RemoveAfterUpdate(anns: seq<Annotation>, id: string, p: AnnotationPatch)
    requires p.id.None? || p.id == Some(id)
    ensures Removed(Updated(anns, id, p), id) == Removed(anns, id)
  {
    if anns != [] {
      var u := Updated(anns, id, p);
      assert u == [u[0]] + Updated(anns[1..], id, p);
      assert u[1..] == Updated(anns[1..], id, p);
      RemoveAfterUpdate(anns[1..], id, p);
    }
  }

  /** Removal keeps exactly the entries with another id, counted with
      multiplicity. */
  lemma {:induction false} RemoveCount(anns: seq<Annotation>, id: string, a: Annotation)
    ensures a.id != id ==> multiset(Removed(anns, id))[a] == multiset(anns)[a]
    ensures a.id == id ==> multiset(Removed(anns, id))[a] == 0
  {
    if anns != [] {
      assert anns == [anns[0]] + anns[1..];
      RemoveCount(anns[1..], id, a);
    }
  }
}
