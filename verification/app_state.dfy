/** The application shell's state and handlers (src/App.tsx): the certificate
    list, the selected certificate, the current page and editor mode, and the
    choice of the one main view to render. */
module AppState {
  import opened Wrappers
  import opened Certificates
  import Seqs

  datatype Page = EditorPage | GiftsPage
  datatype EditorMode = Simple | Advanced

  datatype State = State(page: Page, mode: EditorMode, certificates: seq<Certificate>, selected: Option<Certificate>)

  const Initial: State := State(EditorPage, Simple, [], None)

  /** `handleSaveCertificate`. */
  function SaveCertificate(s: State, cert: Certificate): (s': State)
    ensures |s'.certificates| == |s.certificates| + 1
    ensures s'.certificates[..|s.certificates|] == s.certificates
    ensures s'.certificates[|s.certificates|] == cert
    ensures s'.selected == Some(cert) && s'.page == GiftsPage && s'.mode == s.mode
  {
    s.(certificates := s.certificates + [cert], selected := Some(cert), page := GiftsPage)
  }

  /** The filter callback of `handleDeleteGift`. */
  function OtherThan(id: string): Certificate -> bool {
    (c: Certificate) => c.id != id
  }

  /** `handleDeleteGift`. */
  function DeleteGift(s: State, id: string): (s': State)
    ensures forall c :: c in s'.certificates <==> c in s.certificates && c.id != id
    // each survivor keeps its multiplicity; nothing is duplicated
    ensures forall c :: multiset(s'.certificates)[c] == if c.id != id then multiset(s.certificates)[c] else 0
    ensures s.selected.Some? && s.selected.value.id == id ==> s'.selected == None
    ensures !(s.selected.Some? && s.selected.value.id == id) ==> s'.selected == s.selected
    ensures s'.page == s.page && s'.mode == s.mode
  {
    var p := OtherThan(id);
    var kept := Seqs.Filter(s.certificates, p);
    assert forall c :: (c in kept <==> c in s.certificates && c.id != id)
                    && multiset(kept)[c] == if c.id != id then multiset(s.certificates)[c] else 0 by {
      forall c
        ensures c in kept <==> c in s.certificates && c.id != id
        ensures multiset(kept)[c] == if c.id != id then multiset(s.certificates)[c] else 0
      {
        Seqs.FilterMembership(s.certificates, p, c);
        Seqs.FilterMultiset(s.certificates, p, c);
      }
    }
    s.(certificates := kept,
       selected := if s.selected.Some? && s.selected.value.id == id then None else s.selected)
  }

  /** Deleting keeps the survivors in their original relative order: deleting
      from a concatenation is the concatenation of the deletions. */
  lemma DeleteGiftPreservesOrder(s: State, front: seq<Certificate>, back: seq<Certificate>, id: string)
    requires s.certificates == front + back
    ensures DeleteGift(s, id).certificates
         == DeleteGift(s.(certificates := front), id).certificates + DeleteGift(s.(certificates := back), id).certificates
  {
    Seqs.FilterConcat(front, back, OtherThan(id));
  }

  /** Deleting the id of a freshly saved certificate undoes the save on the
      list and clears the selection. */
  lemma SaveThenDeleteRestoresList(s: State, cert: Certificate)
    requires forall k :: 0 <= k < |s.certificates| ==> s.certificates[k].id != cert.id
    ensures DeleteGift(SaveCertificate(s, cert), cert.id).certificates == s.certificates
    ensures DeleteGift(SaveCertificate(s, cert), cert.id).selected == None
  {
    var p := OtherThan(cert.id);
    Seqs.FilterConcat(s.certificates, [cert], p);
    Seqs.FilterKeepsAll(s.certificates, p);
    assert Seqs.Filter([cert], p) == [];
  }

  /** `handleViewDetails`. */
  function ViewDetails(s: State, cert: Certificate): (s': State)
    ensures s'.selected == Some(cert)
    ensures s'.(selected := s.selected) == s
  {
    s.(selected := Some(cert))
  }

  /** The navigation bar's `onNavigate` callback. */
  function Navigate(s: State, page: Page): (s': State)
    ensures s'.page == page
    ensures page == EditorPage ==> s'.selected == None
    ensures page == GiftsPage ==> s'.selected == s.selected
    ensures s'.certificates == s.certificates && s'.mode == s.mode
  {
    s.(page := page, selected := if page == EditorPage then None else s.selected)
  }

  /** The tracker's "Back" button. */
  function Back(s: State): (s': State)
    ensures s'.selected == None
    ensures s'.(selected := s.selected) == s
  {
    s.(selected := None)
  }

  /** The navigation bar's editor-mode switch. */
  function SetMode(s: State, mode: EditorMode): (s': State)
    ensures s'.mode == mode
    ensures s'.(mode := s.mode) == s
  {
    s.(mode := mode)
  }

  /** The three guards of the `<main>` element, as written. */
  predicate ShowsEditor(s: State) { s.page == EditorPage && s.selected.None? }
  predicate ShowsGiftList(s: State) { s.page == GiftsPage && s.selected.None? }
  predicate ShowsTracker(s: State) { s.selected.Some? }

  datatype View =
    | SimpleEditorView
    | AdvancedEditorView
    | GiftListView(gifts: seq<Certificate>)
    | TrackerView(cert: Certificate, backTo: Page)

  /** The main view rendered in state `s`. */
  function MainView(s: State): (v: View)
    ensures v.TrackerView? <==> ShowsTracker(s)
    ensures (v.SimpleEditorView? || v.AdvancedEditorView?) <==> ShowsEditor(s)
    ensures v.GiftListView? <==> ShowsGiftList(s)
    ensures v.SimpleEditorView? ==> s.mode == Simple
    ensures v.AdvancedEditorView? ==> s.mode == Advanced
    ensures v.GiftListView? ==> v.gifts == s.certificates
    ensures v.TrackerView? ==> Some(v.cert) == s.selected && v.backTo == s.page
  {
    if s.selected.Some? then TrackerView(s.selected.value, s.page)
    else if s.page == EditorPage then (if s.mode.Simple? then SimpleEditorView else AdvancedEditorView)
    else GiftListView(s.certificates)
  }

  /** Exactly one of the three guarded blocks renders in every state. */
  lemma ExactlyOneMainView(s: State)
    ensures ShowsTracker(s) || ShowsEditor(s) || ShowsGiftList(s)
    ensures !(ShowsTracker(s) && ShowsEditor(s))
    ensures !(ShowsTracker(s) && ShowsGiftList(s))
    ensures !(ShowsEditor(s) && ShowsGiftList(s))
  {
  }

  /** What each handler brings on screen. */
  lemma HandlersSelectView(s: State, cert: Certificate, mode: EditorMode)
    ensures MainView(ViewDetails(s, cert)) == TrackerView(cert, s.page)
    ensures MainView(Navigate(s, EditorPage)) == (if s.mode == Simple then SimpleEditorView else AdvancedEditorView)
    ensures MainView(Navigate(s, GiftsPage)) == if s.selected.Some? then TrackerView(s.selected.value, GiftsPage)
                                                else GiftListView(s.certificates)
    ensures MainView(Back(s)) == if s.page == GiftsPage then GiftListView(s.certificates)
                                 else if s.mode == Simple then SimpleEditorView else AdvancedEditorView
    ensures s.page == EditorPage && s.selected.None? ==>
      MainView(SetMode(s, mode)) == (if mode == Simple then SimpleEditorView else AdvancedEditorView)
  {
  }

  /** The application opens on the simple editor, with no certificates and
      nothing selected. */
  lemma InitialShowsSimpleEditor()
    ensures MainView(Initial) == SimpleEditorView
    ensures ShowsEditor(Initial) && !ShowsTracker(Initial) && !ShowsGiftList(Initial)
  {
  }

  /** Saving opens the tracker on the new certificate, with "Back to Gifts". */
  lemma SaveShowsTracker(s: State, cert: Certificate)
    ensures MainView(SaveCertificate(s, cert)) == TrackerView(cert, GiftsPage)
  {
  }
}
