/**
 * The note list the dashboard page of frontend/src/pages/Dashboard.jsx keeps in
 * its component state, the list transforms its handlers apply after the server
 * answers, and the pinned / other split it renders.
 */
module Dashboard {
  import opened Wrappers
  import Seqs
  import opened Notes

  /** The create-note form. */
  datatype Draft = Draft(title: string, content: string)

  const EmptyDraft := Draft("", "")

  datatype AlertKind = Success | Error

  datatype Alert = Alert(kind: AlertKind, message: string)

  // ------------------------------------------------------------ trimming

  /** The white space and line terminators `String.prototype.trim` removes. */
  predicate IsSpace(c: char) {
    || c == ' ' || c == '\t' || c == '\n' || c == '\r' || c == '\U{000B}' || c == '\U{000C}'
    || c == '\U{00A0}' || c == '\U{1680}' || ('\U{2000}' <= c <= '\U{200A}')
    || c == '\U{2028}' || c == '\U{2029}' || c == '\U{202F}' || c == '\U{205F}'
    || c == '\U{3000}' || c == '\U{FEFF}'
  }

  predicate AllSpace(s: string) {
    forall i :: 0 <= i < |s| ==> IsSpace(s[i])
  }

  /** Drops the leading white space: what is left is a suffix that does not start with it. */
  function TrimStart(s: string): (r: string)
    ensures |r| <= |s| && r == s[|s| - |r|..]
    ensures AllSpace(s[..|s| - |r|])
    ensures r == [] || !IsSpace(r[0])
    decreases |s|
  {
    if s != [] && IsSpace(s[0]) then TrimStart(s[1..]) else s
  }

  /** Drops the trailing white space: what is left is a prefix that does not end with it. */
  function TrimEnd(s: string): (r: string)
    ensures |r| <= |s| && r == s[..|r|]
    ensures AllSpace(s[|r|..])
    ensures r == [] || !IsSpace(r[|r| - 1])
    decreases |s|
  {
    if s != [] && IsSpace(s[|s| - 1]) then
      var r := TrimEnd(s[..|s| - 1]);
      assert s[|r|..] == s[..|s| - 1][|r|..] + [s[|s| - 1]];
      r
    else s
  }

  /** `s.trim()`: a string trims to nothing exactly when it is all white space. */
  function Trim(s: string): (r: string)
    ensures r == "" <==> AllSpace(s)
    ensures r != "" ==> !IsSpace(r[0]) && !IsSpace(r[|r| - 1])
  {
    TrimEnd(TrimStart(s))
  }

  /** The guard of `handleCreateNote`: neither field is empty once trimmed (see `Trim`). */
  predicate CanSubmit(d: Draft)
    ensures CanSubmit(d) ==> d.title != "" && d.content != ""
  {
    !AllSpace(d.title) && !AllSpace(d.content)
  }

  /** `!title.trim() || !content.trim()` refuses a draft exactly when `CanSubmit` does not hold. */
  lemma SubmitGuard(d: Draft)
    ensures CanSubmit(d) <==> Trim(d.title) != "" && Trim(d.content) != ""
  {
  }

  // --------------------------------------------------------- requests sent

  /** The fields an update never changes: the same note, possibly with other contents. */
  predicate SameIdentity(a: Note, b: Note) {
    a.id == b.id && a.owner == b.owner && a.createdAt == b.createdAt
  }

  /** `updateNote(note._id, { isPinned: !note.isPinned })`: on the server it flips the pin and nothing else. */
  function PinRequest(n: Note): (r: UpdateRequest)
    ensures r.isPinned == Some(!n.isPinned)
    ensures ApplyUpdate(n, r) == n.(isPinned := !n.isPinned)
  {
    UpdateRequest(None, None, None, Some(!n.isPinned))
  }

  /**
   * `updateNote(note._id, note)`: the whole edited note is sent, so the stored note
   * becomes the edited one whatever it held before.
   */
  function EditRequest(n: Note): (r: UpdateRequest)
    ensures forall stored: Note :: SameIdentity(stored, n) ==> ApplyUpdate(stored, r) == n
  {
    UpdateRequest(Some(n.title), Some(n.content), Some(n.color), Some(n.isPinned))
  }

  // -------------------------------------------------------- pinned / others

  function Pinned(ns: seq<Note>): (r: seq<Note>)
    ensures forall i :: 0 <= i < |r| ==> r[i] in ns && r[i].isPinned
  {
    Seqs.Filter(ns, (n: Note) => n.isPinned)
  }

  function Others(ns: seq<Note>): (r: seq<Note>)
    ensures forall i :: 0 <= i < |r| ==> r[i] in ns && !r[i].isPinned
  {
    Seqs.Filter(ns, (n: Note) => !n.isPinned)
  }

  /**
   * `pinnedNotes` and `otherNotes` split the list: each note lands in exactly one of
   * them, nothing is lost or duplicated, and both keep the list's order.
   */
  lemma SplitPartitions(ns: seq<Note>)
    ensures multiset(Pinned(ns)) + multiset(Others(ns)) == multiset(ns)
    ensures |Pinned(ns)| + |Others(ns)| == |ns|
    ensures Seqs.IsSubsequence(Pinned(ns), ns) && Seqs.IsSubsequence(Others(ns), ns)
    ensures forall i :: 0 <= i < |ns| ==> (ns[i] in Pinned(ns) <==> ns[i].isPinned)
    ensures forall i :: 0 <= i < |ns| ==> (ns[i] in Others(ns) <==> !ns[i].isPinned)
  {
    Seqs.FilterPartition(ns, (n: Note) => n.isPinned, (n: Note) => !n.isPinned);
    Seqs.FilterIsSubsequence(ns, (n: Note) => n.isPinned);
    Seqs.FilterIsSubsequence(ns, (n: Note) => !n.isPinned);
  }

  /** Pinning or unpinning one note of a list with distinct ids moves exactly that note between the two sections. */
  lemma PinMovesOne(ns: seq<Note>, i: nat)
    requires DistinctIds(ns) && i < |ns|
    ensures
      var after := ReplaceById(ns, ApplyUpdate(ns[i], PinRequest(ns[i])));
      && after == ns[i := ns[i].(isPinned := !ns[i].isPinned)]
      && |Pinned(after)| == (if ns[i].isPinned then |Pinned(ns)| - 1 else |Pinned(ns)| + 1)
      && |Others(after)| == (if ns[i].isPinned then |Others(ns)| + 1 else |Others(ns)| - 1)
  {
    var flipped := ns[i].(isPinned := !ns[i].isPinned);
    ReplaceAt(ns, i, flipped);
    var after := ns[i := flipped];
    assert ns == ns[..i] + [ns[i]] + ns[i + 1..];
    assert after == ns[..i] + [flipped] + ns[i + 1..];
    var pin := (n: Note) => n.isPinned;
    var other := (n: Note) => !n.isPinned;
    Seqs.FilterAppend(ns[..i] + [ns[i]], ns[i + 1..], pin);
    Seqs.FilterAppend(ns[..i], [ns[i]], pin);
    Seqs.FilterAppend(ns[..i] + [flipped], ns[i + 1..], pin);
    Seqs.FilterAppend(ns[..i], [flipped], pin);
    Seqs.FilterAppend(ns[..i] + [ns[i]], ns[i + 1..], other);
    Seqs.FilterAppend(ns[..i], [ns[i]], other);
    Seqs.FilterAppend(ns[..i] + [flipped], ns[i + 1..], other);
    Seqs.FilterAppend(ns[..i], [flipped], other);
  }

  // ------------------------------------------------------- component state

  class DashboardState {
    var notes: seq<Note>
    var draft: Draft
    var loading: bool
    var alert: Option<Alert>

    constructor ()
      ensures notes == [] && draft == EmptyDraft && !loading && alert == None
    {
      notes, draft, loading, alert := [], EmptyDraft, false, None;
    }

    /**
     * `handleCreateNote`. `response` is the created note the server answers with, or
     * None when the request fails; `sent` is the form sent, None when nothing is sent.
     */
    method HandleCreateNote(response: Option<Note>) returns (sent: Option<Draft>)
      modifies this
      ensures !CanSubmit(old(draft)) ==> sent == None && unchanged(this)
      ensures CanSubmit(old(draft)) ==> sent == Some(old(draft)) && !loading
      ensures CanSubmit(old(draft)) && response.Some? ==>
        && notes == [response.value] + old(notes)
        && draft == EmptyDraft
        && alert == Some(Alert(Success, "Note created successfully"))
      ensures CanSubmit(old(draft)) && response.None? ==>
        && notes == old(notes)
        && draft == old(draft)
        && alert == Some(Alert(Error, "Failed to create note"))
    {
      if !CanSubmit(draft) {
        return None;
      }
      sent := Some(draft);
      loading := true;
      if response.Some? {
        notes, draft, alert := [response.value] + notes, EmptyDraft, Some(Alert(Success, "Note created successfully"));
      } else {
        alert := Some(Alert(Error, "Failed to create note"));
      }
      loading := false;
    }

    /** `handleUpdateNote`: sends the edited note and swaps in the note the server answers with. */
    method HandleUpdateNote(edited: Note, response: Option<Note>) returns (sent: UpdateRequest)
      modifies this`notes, this`alert
      ensures forall stored: Note :: SameIdentity(stored, edited) ==> ApplyUpdate(stored, sent) == edited
      ensures response.Some? ==>
        notes == ReplaceById(old(notes), response.value) && alert == Some(Alert(Success, "Note updated successfully"))
      ensures response.None? ==>
        notes == old(notes) && alert == Some(Alert(Error, "Failed to update note"))
    {
      sent := EditRequest(edited);
      match response {
        case Some(updated) =>
          notes := ReplaceById(notes, updated);
          alert := Some(Alert(Success, "Note updated successfully"));
        case None =>
          alert := Some(Alert(Error, "Failed to update note"));
      }
    }

    /** `handleDeleteNote`: `ok` tells whether the server accepted the delete. */
    method HandleDeleteNote(noteId: NoteId, ok: bool)
      modifies this`notes, this`alert
      ensures ok ==> notes == WithoutId(old(notes), noteId) && alert == Some(Alert(Success, "Note deleted successfully"))
      ensures !ok ==> notes == old(notes) && alert == Some(Alert(Error, "Failed to delete note"))
    {
      if ok {
        notes := WithoutId(notes, noteId);
        alert := Some(Alert(Success, "Note deleted successfully"));
      } else {
        alert := Some(Alert(Error, "Failed to delete note"));
      }
    }

    /** `handlePinNote`: asks for the opposite pin state and swaps in the note the server answers with. */
    method HandlePinNote(note: Note, response: Option<Note>) returns (sent: UpdateRequest)
      modifies this`notes, this`alert
      ensures sent.isPinned == Some(!note.isPinned) && sent.title.None? && sent.content.None? && sent.color.None?
      ensures response.Some? ==>
        && notes == ReplaceById(old(notes), response.value)
        && alert == Some(Alert(Success, if response.value.isPinned then "Note pinned" else "Note unpinned"))
      ensures response.None? ==>
        notes == old(notes) && alert == Some(Alert(Error, "Failed to pin/unpin note"))
    {
      sent := PinRequest(note);
      match response {
        case Some(updated) =>
          notes := ReplaceById(notes, updated);
          alert := Some(Alert(Success, if updated.isPinned then "Note pinned" else "Note unpinned"));
        case None =>
          alert := Some(Alert(Error, "Failed to pin/unpin note"));
      }
    }
  }
}
