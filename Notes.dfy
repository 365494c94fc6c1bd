/**
 * The notes handlers of backend/controllers/notesController.js against an
 * in-memory Note collection, with the authenticated caller as a parameter, and
 * the list operations they share with the dashboard.
 */
module Notes {
  import opened Wrappers
  import Seqs
  import Validators
  import UserSchema

  type NoteId = nat

  const DefaultColor := "#ffffff"

  datatype Note = Note(
    id: NoteId,
    title: string,
    content: string,
    color: string,
    isPinned: bool,
    owner: UserSchema.UserId,
    createdAt: nat)

  /** The body of a `PUT /api/notes/:id`; None is a field the body leaves out. */
  datatype UpdateRequest = UpdateRequest(
    title: Option<string>,
    content: Option<string>,
    color: Option<string>,
    isPinned: Option<bool>)

  datatype NoteReply = NoteReply(status: nat, message: string, note: Option<Note>)

  /** The `getNotes` response: `count` and `data`. */
  datatype Listing = Listing(count: nat, data: seq<Note>)

  const TitleMessage := "Title must be between 1 and 100 characters"
  const ContentMessage := "Content must be between 1 and 10000 characters"

  // ------------------------------------------------------------ lists of notes

  predicate DistinctIds(ns: seq<Note>) {
    forall i, j :: 0 <= i < j < |ns| ==> ns[i].id != ns[j].id
  }

  /** `Note.findById(id)`: where the note with that id is, if anywhere. */
  function IndexOf(ns: seq<Note>, id: NoteId): (r: Option<nat>)
    ensures r.None? <==> forall i :: 0 <= i < |ns| ==> ns[i].id != id
    ensures r.Some? ==> r.value < |ns| && ns[r.value].id == id
  {
    if ns == [] then None
    else if ns[0].id == id then Some(0)
    else match IndexOf(ns[1..], id)
      case None => None
      case Some(k) => Some(k + 1)
  }

  /** `notes.filter((note) => note._id !== noteId)` */
  function WithoutId(ns: seq<Note>, id: NoteId): (r: seq<Note>)
    ensures |r| <= |ns|
    ensures forall i :: 0 <= i < |r| ==> r[i] in ns && r[i].id != id
  {
    Seqs.Filter(ns, (n: Note) => n.id != id)
  }

  /** `notes.map((n) => (n._id === updated._id ? updated : n))` */
  function ReplaceById(ns: seq<Note>, updated: Note): (r: seq<Note>)
    ensures DistinctIds(ns) ==> DistinctIds(r)
  {
    seq(|ns|, i requires 0 <= i < |ns| => if ns[i].id == updated.id then updated else ns[i])
  }

  /** `Note.find({ user: owner })` */
  function OwnedBy(ns: seq<Note>, owner: UserSchema.UserId): (r: seq<Note>)
    ensures forall i :: 0 <= i < |r| ==> r[i] in ns && r[i].owner == owner
  {
    Seqs.Filter(ns, (n: Note) => n.owner == owner)
  }

  /**
   * `findByIdAndUpdate(id, { title, content, color, isPinned })`: each field the body
   * carries replaces the stored one, a left-out field keeps it. The id, the owner and
   * the creation time are never touched.
   */
  function ApplyUpdate(n: Note, req: UpdateRequest): (r: Note)
    ensures r.id == n.id && r.owner == n.owner && r.createdAt == n.createdAt
  {
    n.(title := req.title.GetOr(n.title),
       content := req.content.GetOr(n.content),
       color := req.color.GetOr(n.color),
       isPinned := req.isPinned.GetOr(n.isPinned))
  }

  /** Removing by id leaves no note with that id, keeps every other note, and keeps their order. */
  lemma RemoveById(ns: seq<Note>, id: NoteId)
    ensures forall i :: 0 <= i < |WithoutId(ns, id)| ==> WithoutId(ns, id)[i].id != id
    ensures forall i :: 0 <= i < |ns| && ns[i].id != id ==> ns[i] in WithoutId(ns, id)
    ensures Seqs.IsSubsequence(WithoutId(ns, id), ns)
  {
    Seqs.FilterIsSubsequence(ns, (n: Note) => n.id != id);
  }

  /** With distinct ids, removing by id removes exactly the one note at its position. */
  lemma RemoveAt(ns: seq<Note>, i: nat)
    requires DistinctIds(ns) && i < |ns|
    ensures WithoutId(ns, ns[i].id) == ns[..i] + ns[i + 1..]
  {
    var id := ns[i].id;
    var before, after := ns[..i], ns[i + 1..];
    assert ns == before + ([ns[i]] + after);
    forall k | 0 <= k < |before|
      ensures before[k].id != id
    {
      assert before[k] == ns[k];
    }
    forall k | 0 <= k < |after|
      ensures after[k].id != id
    {
      assert after[k] == ns[i + 1 + k];
    }
    Seqs.FilterAppend(before, [ns[i]] + after, (n: Note) => n.id != id);
    Seqs.FilterAppend([ns[i]], after, (n: Note) => n.id != id);
    Seqs.FilterKeepsAll(before, (n: Note) => n.id != id);
    Seqs.FilterKeepsAll(after, (n: Note) => n.id != id);
    Seqs.FilterDropsAll([ns[i]], (n: Note) => n.id != id);
  }

  /** Removing one position keeps the ids distinct and below any bound they were below. */
  lemma RemoveAtKeepsIds(ns: seq<Note>, i: nat, bound: nat, r: seq<Note>)
    requires DistinctIds(ns) && i < |ns| && r == ns[..i] + ns[i + 1..]
    requires forall k :: 0 <= k < |ns| ==> ns[k].id < bound
    ensures DistinctIds(r)
    ensures forall k :: 0 <= k < |r| ==> r[k].id < bound
  {
    forall k | 0 <= k < |r|
      ensures r[k] == ns[if k < i then k else k + 1]
    {
    }
  }

  /** With distinct ids, replacing by id changes exactly the one note at its position. */
  lemma ReplaceAt(ns: seq<Note>, i: nat, updated: Note)
    requires DistinctIds(ns) && i < |ns| && ns[i].id == updated.id
    ensures ReplaceById(ns, updated) == ns[i := updated]
  {
  }

  /** Replacing by id keeps the length and the id at every position. */
  lemma ReplaceKeepsIds(ns: seq<Note>, updated: Note)
    ensures |ReplaceById(ns, updated)| == |ns|
    ensures forall i :: 0 <= i < |ns| ==> ReplaceById(ns, updated)[i].id == ns[i].id
    ensures forall i :: 0 <= i < |ns| && ns[i].id != updated.id ==> ReplaceById(ns, updated)[i] == ns[i]
  {
  }

  // ------------------------------------------------------------- newest first

  /** `.sort({ createdAt: -1 })` */
  predicate NewestFirst(ns: seq<Note>) {
    forall i, j :: 0 <= i < j < |ns| ==> ns[i].createdAt >= ns[j].createdAt
  }

  /** A note no older than the head of a newest-first list may go in front of it. */
  lemma NewestFirstCons(y: Note, ns: seq<Note>)
    requires NewestFirst(ns) && (ns == [] || y.createdAt >= ns[0].createdAt)
    ensures NewestFirst([y] + ns)
  {
    forall i, j | 0 <= i < j < |[y] + ns|
      ensures ([y] + ns)[i].createdAt >= ([y] + ns)[j].createdAt
    {
      if i == 0 && j > 1 {
        assert ns[0].createdAt >= ns[j - 1].createdAt;
      }
    }
  }

  lemma NewestFirstTail(ns: seq<Note>)
    requires NewestFirst(ns) && ns != []
    ensures NewestFirst(ns[1..])
  {
    forall i, j | 0 <= i < j < |ns| - 1
      ensures ns[1..][i].createdAt >= ns[1..][j].createdAt
    {
      assert ns[1..][i] == ns[i + 1] && ns[1..][j] == ns[j + 1];
    }
  }

  /** Puts `x` before the first note that is not newer than it. */
  function InsertNewest(x: Note, ns: seq<Note>): (r: seq<Note>)
    requires NewestFirst(ns)
    ensures NewestFirst(r)
    ensures multiset(r) == multiset(ns) + multiset{x}
    ensures |r| == |ns| + 1 && (r[0] == x || (ns != [] && r[0] == ns[0]))
  {
    if ns == [] || x.createdAt >= ns[0].createdAt then
      NewestFirstCons(x, ns);
      [x] + ns
    else
      NewestFirstTail(ns);
      var rest := InsertNewest(x, ns[1..]);
      assert multiset(ns) == multiset{ns[0]} + multiset(ns[1..]) by {
        assert ns == [ns[0]] + ns[1..];
      }
      NewestFirstCons(ns[0], rest);
      [ns[0]] + rest
  }

  /** The notes ordered newest first. */
  function SortNewestFirst(ns: seq<Note>): (r: seq<Note>)
    ensures NewestFirst(r)
    ensures multiset(r) == multiset(ns)
  {
    if ns == [] then []
    else
      assert ns == [ns[0]] + ns[1..];
      InsertNewest(ns[0], SortNewestFirst(ns[1..]))
  }

  /** The sorted listing holds only the owner's notes. */
  lemma ListingOwned(ns: seq<Note>, owner: UserSchema.UserId)
    ensures forall i :: 0 <= i < |SortNewestFirst(OwnedBy(ns, owner))| ==>
      SortNewestFirst(OwnedBy(ns, owner))[i].owner == owner
  {
    var owned := OwnedBy(ns, owner);
    var data := SortNewestFirst(owned);
    forall i | 0 <= i < |data|
      ensures data[i].owner == owner
    {
      assert data[i] in multiset(data);
      assert data[i] in owned;
    }
  }

  /** The sorted listing holds every one of the owner's notes. */
  lemma ListingComplete(ns: seq<Note>, owner: UserSchema.UserId)
    ensures forall i :: 0 <= i < |ns| && ns[i].owner == owner ==> ns[i] in SortNewestFirst(OwnedBy(ns, owner))
  {
    var owned := OwnedBy(ns, owner);
    var data := SortNewestFirst(owned);
    forall i | 0 <= i < |ns| && ns[i].owner == owner
      ensures ns[i] in data
    {
      assert ns[i] in owned;
      assert ns[i] in multiset(owned);
    }
  }

  // --------------------------------------------------------------- the store

  /** `title && !validateNoteTitle(title)`: a supplied title longer than 100 characters. */
  predicate TitleRejected(req: UpdateRequest)
    ensures TitleRejected(req) <==> req.title.Some? && |req.title.value| > 100
  {
    req.title.Some? && req.title.value != "" && !Validators.ValidNoteTitle(req.title.value)
  }

  /** `content && !validateNoteContent(content)`: supplied content longer than 10000 characters. */
  predicate ContentRejected(req: UpdateRequest)
    ensures ContentRejected(req) <==> req.content.Some? && |req.content.value| > 10000
  {
    req.content.Some? && req.content.value != "" && !Validators.ValidNoteContent(req.content.value)
  }

  class NoteStore {
    /** The Note collection, in insertion order. */
    var notes: seq<Note>
    /** The next fresh note id. */
    var nextId: NoteId

    ghost predicate Valid()
      reads this
    {
      && DistinctIds(notes)
      && (forall i :: 0 <= i < |notes| ==> notes[i].id < nextId)
    }

    constructor ()
      ensures Valid() && notes == [] && nextId == 0
    {
      notes, nextId := [], 0;
    }

    /** `getNotes`: exactly the caller's notes, newest first, with their count. */
    function GetNotes(caller: UserSchema.UserId): (r: Listing)
      reads this
      ensures r.count == |r.data|
      ensures NewestFirst(r.data)
      ensures multiset(r.data) == multiset(OwnedBy(notes, caller))
      ensures forall i :: 0 <= i < |r.data| ==> r.data[i].owner == caller
      ensures forall i :: 0 <= i < |notes| && notes[i].owner == caller ==> notes[i] in r.data
    {
      ListingOwned(notes, caller);
      ListingComplete(notes, caller);
      var data := SortNewestFirst(OwnedBy(notes, caller));
      Listing(|data|, data)
    }

    /** `createNote` */
    method CreateNote(caller: UserSchema.UserId, title: string, content: string, color: string, now: nat)
      returns (reply: NoteReply)
      requires Valid()
      modifies this
      ensures Valid()
      ensures title == "" || content == "" ==>
        reply == NoteReply(400, "Please provide title and content", None) && unchanged(this)
      ensures title != "" && content != "" && !Validators.ValidNoteTitle(title) ==>
        reply == NoteReply(400, TitleMessage, None) && unchanged(this)
      ensures title != "" && content != "" && Validators.ValidNoteTitle(title) && !Validators.ValidNoteContent(content) ==>
        reply == NoteReply(400, ContentMessage, None) && unchanged(this)
      ensures Validators.ValidNoteTitle(title) && Validators.ValidNoteContent(content) ==>
        var n := Note(old(nextId), title, content, if color == "" then DefaultColor else color, false, caller, now);
        && notes == old(notes) + [n]
        && nextId == old(nextId) + 1
        && reply == NoteReply(201, "Note created successfully", Some(n))
    {
      if title == "" || content == "" {
        return NoteReply(400, "Please provide title and content", None);
      }
      if !Validators.ValidNoteTitle(title) {
        return NoteReply(400, TitleMessage, None);
      }
      if !Validators.ValidNoteContent(content) {
        return NoteReply(400, ContentMessage, None);
      }
      var note := Note(nextId, title, content, if color == "" then DefaultColor else color, false, caller, now);
      notes := notes + [note];
      nextId := nextId + 1;
      reply := NoteReply(201, "Note created successfully", Some(note));
    }

    /** `updateNote` */
    method UpdateNote(caller: UserSchema.UserId, id: NoteId, req: UpdateRequest) returns (reply: NoteReply)
      requires Valid()
      modifies this`notes
      ensures Valid()
      ensures |notes| == |old(notes)|
      ensures forall i :: 0 <= i < |notes| ==> notes[i].id == old(notes)[i].id && notes[i].owner == old(notes)[i].owner
      ensures IndexOf(old(notes), id).None? ==> reply == NoteReply(404, "Note not found", None) && notes == old(notes)
      ensures IndexOf(old(notes), id).Some? ==>
        var n := old(notes)[IndexOf(old(notes), id).value];
        if n.owner != caller then reply == NoteReply(401, "Not authorized", None) && notes == old(notes)
        else if TitleRejected(req) then reply == NoteReply(400, TitleMessage, None) && notes == old(notes)
        else if ContentRejected(req) then reply == NoteReply(400, ContentMessage, None) && notes == old(notes)
        else
          && notes == ReplaceById(old(notes), ApplyUpdate(n, req))
          && reply == NoteReply(200, "Note updated successfully", Some(ApplyUpdate(n, req)))
    {
      var found := IndexOf(notes, id);
      if found.None? {
        return NoteReply(404, "Note not found", None);
      }
      var i := found.value;
      var note := notes[i];
      if note.owner != caller {
        return NoteReply(401, "Not authorized", None);
      }
      if TitleRejected(req) {
        return NoteReply(400, TitleMessage, None);
      }
      if ContentRejected(req) {
        return NoteReply(400, ContentMessage, None);
      }
      var updated := ApplyUpdate(note, req);
      ReplaceAt(notes, i, updated);
      notes := notes[i := updated];
      reply := NoteReply(200, "Note updated successfully", Some(updated));
    }

    /** `deleteNote` */
    method DeleteNote(caller: UserSchema.UserId, id: NoteId) returns (reply: NoteReply)
      requires Valid()
      modifies this`notes
      ensures Valid()
      ensures IndexOf(old(notes), id).None? ==> reply == NoteReply(404, "Note not found", None) && notes == old(notes)
      ensures IndexOf(old(notes), id).Some? && old(notes)[IndexOf(old(notes), id).value].owner != caller ==>
        reply == NoteReply(401, "Not authorized", None) && notes == old(notes)
      ensures IndexOf(old(notes), id).Some? && old(notes)[IndexOf(old(notes), id).value].owner == caller ==>
        && notes == WithoutId(old(notes), id)
        && |notes| == |old(notes)| - 1
        && reply == NoteReply(200, "Note deleted successfully", None)
    {
      var found := IndexOf(notes, id);
      if found.None? {
        return NoteReply(404, "Note not found", None);
      }
      var i := found.value;
      if notes[i].owner != caller {
        return NoteReply(401, "Not authorized", None);
      }
      RemoveAt(notes, i);
      RemoveAtKeepsIds(notes, i, nextId, notes[..i] + notes[i + 1..]);
      notes := notes[..i] + notes[i + 1..];
      reply := NoteReply(200, "Note deleted successfully", None);
    }
  }
}
