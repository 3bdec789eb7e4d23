/**
 * The client's word-list store: lookup and filtering, creation with the
 * next free id, partial update, deletion, and assigning lists to students.
 * `now` (milliseconds) stands for the clock read when a list is created.
 */
module Wordlists {
  import opened Options
  import opened Seqs

  datatype Wordlist = Wordlist(
    id: int,
    name: string,
    description: string,
    words: seq<string>,
    assignedStudents: seq<int>,
    createdBy: int,
    createdAt: int)

  /** The fields a caller supplies to `addWordlist` (everything but id and creation time). */
  datatype WordlistData = WordlistData(
    name: string,
    description: string,
    words: seq<string>,
    assignedStudents: seq<int>,
    createdBy: int)

  /** The fields `updateWordlist` may change; an absent field keeps its value. */
  datatype WordlistUpdate = WordlistUpdate(
    name: Option<string>,
    description: Option<string>,
    words: Option<seq<string>>,
    assignedStudents: Option<seq<int>>)

  function ListWithId(id: int): Wordlist -> bool {
    (l: Wordlist) => l.id == id
  }

  function AssignedTo(studentId: int): Wordlist -> bool {
    (l: Wordlist) => studentId in l.assignedStudents
  }

  function CreatedBy(teacherId: int): Wordlist -> bool {
    (l: Wordlist) => l.createdBy == teacherId
  }

  /** `getWordlistById`. */
  function GetWordlistById(lists: seq<Wordlist>, id: int): (r: Option<Wordlist>)
    ensures r.None? <==> forall j :: 0 <= j < |lists| ==> lists[j].id != id
    ensures forall i :: IsFirst(lists, i, ListWithId(id)) ==> r == Some(lists[i])
  {
    Find(lists, ListWithId(id))
  }

  /** `getWordlistsForStudent`: the lists assigned to the student, in order. */
  function GetWordlistsForStudent(lists: seq<Wordlist>, studentId: int): (r: seq<Wordlist>)
    ensures forall i :: 0 <= i < |r| ==> r[i] in lists && studentId in r[i].assignedStudents
    ensures forall i :: 0 <= i < |lists| && studentId in lists[i].assignedStudents ==> lists[i] in r
    ensures forall l :: multiset(r)[l] == if studentId in l.assignedStudents then multiset(lists)[l] else 0
  {
    FilterMultiplicity(lists, AssignedTo(studentId));
    Filter(lists, AssignedTo(studentId))
  }

  /** `getWordlistsByTeacher`: the lists the teacher created, in order. */
  function GetWordlistsByTeacher(lists: seq<Wordlist>, teacherId: int): (r: seq<Wordlist>)
    ensures forall i :: 0 <= i < |r| ==> r[i] in lists && r[i].createdBy == teacherId
    ensures forall i :: 0 <= i < |lists| && lists[i].createdBy == teacherId ==> lists[i] in r
    ensures forall l :: multiset(r)[l] == if l.createdBy == teacherId then multiset(lists)[l] else 0
  {
    FilterMultiplicity(lists, CreatedBy(teacherId));
    Filter(lists, CreatedBy(teacherId))
  }

  /** Both queries keep list order: they distribute over concatenation. */
  lemma QueriesKeepOrder(a: seq<Wordlist>, b: seq<Wordlist>, studentId: int, teacherId: int)
    ensures GetWordlistsForStudent(a + b, studentId) == GetWordlistsForStudent(a, studentId) + GetWordlistsForStudent(b, studentId)
    ensures GetWordlistsByTeacher(a + b, teacherId) == GetWordlistsByTeacher(a, teacherId) + GetWordlistsByTeacher(b, teacherId)
  {
    FilterAppend(a, b, AssignedTo(studentId));
    FilterAppend(a, b, CreatedBy(teacherId));
  }

  /** `Math.max(...ids, 0)`: the largest id, or 0 for no lists. */
  function MaxIdOrZero(lists: seq<Wordlist>): (m: int)
    ensures m >= 0
    ensures forall j :: 0 <= j < |lists| ==> lists[j].id <= m
    ensures m == 0 || exists j :: 0 <= j < |lists| && lists[j].id == m
    decreases |lists|
  {
    if |lists| == 0 then 0
    else
      var rest := MaxIdOrZero(lists[1..]);
      assert forall j :: 1 <= j < |lists| ==> lists[j] == lists[1..][j - 1];
      if lists[0].id >= rest then lists[0].id else rest
  }

  /**
   * `addWordlist`: appends the list under an id greater than every
   * existing one (and at least 1), created at `now`, and returns it.
   */
  function AddWordlist(lists: seq<Wordlist>, data: WordlistData, now: int): (r: (seq<Wordlist>, Wordlist))
    ensures r.0 == lists + [r.1]
    ensures r.1.id >= 1
    ensures forall j :: 0 <= j < |lists| ==> lists[j].id < r.1.id
    ensures r.1.id == MaxIdOrZero(lists) + 1
    ensures r.1 == Wordlist(r.1.id, data.name, data.description, data.words, data.assignedStudents, data.createdBy, now)
    ensures GetWordlistById(r.0, r.1.id) == Some(r.1)
  {
    var l := Wordlist(MaxIdOrZero(lists) + 1, data.name, data.description, data.words,
                      data.assignedStudents, data.createdBy, now);
    var r := lists + [l];
    assert IsFirst(r, |lists|, ListWithId(l.id));
    (r, l)
  }

  /**
   * `updateWordlist`: the first list with the id gets each present field
   * of the update and keeps its id, creator, creation time and every
   * absent field; no other list changes. An unknown id changes nothing.
   */
  function UpdateWordlist(lists: seq<Wordlist>, id: int, update: WordlistUpdate): (r: (seq<Wordlist>, Option<Wordlist>))
    ensures |r.0| == |lists|
    ensures r.1.None? <==> forall j :: 0 <= j < |lists| ==> lists[j].id != id
    ensures r.1.None? ==> r.0 == lists
    ensures forall i :: IsFirst(lists, i, ListWithId(id)) ==>
      && r.1 == Some(r.0[i])
      && r.0[i].id == lists[i].id
      && r.0[i].createdBy == lists[i].createdBy
      && r.0[i].createdAt == lists[i].createdAt
      && r.0[i].name == (if update.name.Some? then update.name.value else lists[i].name)
      && r.0[i].description == (if update.description.Some? then update.description.value else lists[i].description)
      && r.0[i].words == (if update.words.Some? then update.words.value else lists[i].words)
      && r.0[i].assignedStudents ==
           (if update.assignedStudents.Some? then update.assignedStudents.value else lists[i].assignedStudents)
    ensures forall j :: 0 <= j < |lists| && !IsFirst(lists, j, ListWithId(id)) ==> r.0[j] == lists[j]
  {
    match FirstIndex(lists, ListWithId(id))
    case None => (lists, None)
    case Some(i) =>
      var current := lists[i];
      var updated := Wordlist(
        current.id,
        update.name.GetOr(current.name),
        update.description.GetOr(current.description),
        update.words.GetOr(current.words),
        update.assignedStudents.GetOr(current.assignedStudents),
        current.createdBy,
        current.createdAt);
      (lists[i := updated], Some(updated))
  }

  /**
   * `deleteWordlist`: removes the first list with the id and reports
   * whether there was one.
   */
  function DeleteWordlist(lists: seq<Wordlist>, id: int): (r: (seq<Wordlist>, bool))
    ensures r.1 <==> exists j :: 0 <= j < |lists| && lists[j].id == id
    ensures !r.1 ==> r.0 == lists
    ensures forall i :: IsFirst(lists, i, ListWithId(id)) ==> r.0 == lists[..i] + lists[i + 1..]
    ensures |r.0| == if r.1 then |lists| - 1 else |lists|
  {
    match FirstIndex(lists, ListWithId(id))
    case None => (lists, false)
    case Some(i) => (RemoveAt(lists, i), true)
  }

  /** An update with every field absent changes nothing. */
  lemma EmptyWordlistUpdateChangesNothing(lists: seq<Wordlist>, id: int)
    ensures UpdateWordlist(lists, id, WordlistUpdate(None, None, None, None)).0 == lists
  {
  }

  /** The list `updateWordlist` returns is the one a lookup by the same id then finds. */
  lemma UpdatedWordlistIsFound(lists: seq<Wordlist>, id: int, update: WordlistUpdate)
    ensures var r := UpdateWordlist(lists, id, update);
      GetWordlistById(r.0, id) == r.1
  {
    var r := UpdateWordlist(lists, id, update);
    match FirstIndex(lists, ListWithId(id))
    case None =>
    case Some(i) =>
      assert forall j :: 0 <= j < i ==> r.0[j] == lists[j];
      assert IsFirst(r.0, i, ListWithId(id));
  }

  /** With distinct ids, a deleted list can no longer be found and every other list remains. */
  lemma DeleteWordlistRemovesExactlyOne(lists: seq<Wordlist>, id: int)
    requires forall i, j :: 0 <= i < j < |lists| ==> lists[i].id != lists[j].id
    ensures var r := DeleteWordlist(lists, id).0;
      && GetWordlistById(r, id).None?
      && forall j :: 0 <= j < |lists| && lists[j].id != id ==> lists[j] in r
  {
    var r := DeleteWordlist(lists, id).0;
    match FirstIndex(lists, ListWithId(id))
    case None =>
    case Some(i) =>
      assert r == lists[..i] + lists[i + 1..];
      forall j | 0 <= j < |lists| && lists[j].id != id
        ensures lists[j] in r
      {
        if j < i {
          assert r[j] == lists[j];
        } else {
          assert r[j - 1] == lists[j];
        }
      }
  }

  /** No list names a student twice. */
  predicate AssignmentsDistinct(lists: seq<Wordlist>) {
    forall i :: 0 <= i < |lists| ==> NoDuplicates(lists[i].assignedStudents)
  }

  /** `assignWordlistToStudent` has an effect: the list exists and the student is not on it yet. */
  ghost predicate CanAssign(lists: seq<Wordlist>, wordlistId: int, studentId: int) {
    exists i :: IsFirst(lists, i, ListWithId(wordlistId)) && studentId !in lists[i].assignedStudents
  }

  /**
   * `assignWordlistToStudent`: appends the student to the first list with
   * the id unless already there; reports whether it did. Nothing else
   * changes.
   */
  function AssignWordlistToStudent(lists: seq<Wordlist>, wordlistId: int, studentId: int): (r: (seq<Wordlist>, bool))
    ensures |r.0| == |lists|
    ensures r.1 <==> CanAssign(lists, wordlistId, studentId)
    ensures !r.1 ==> r.0 == lists
    ensures forall i :: IsFirst(lists, i, ListWithId(wordlistId)) ==>
      r.0[i] == lists[i].(assignedStudents := lists[i].assignedStudents + (if r.1 then [studentId] else []))
      && studentId in r.0[i].assignedStudents
    ensures forall j :: 0 <= j < |lists| && !IsFirst(lists, j, ListWithId(wordlistId)) ==> r.0[j] == lists[j]
    ensures AssignmentsDistinct(lists) ==> AssignmentsDistinct(r.0)
  {
    match FirstIndex(lists, ListWithId(wordlistId))
    case None => (lists, false)
    case Some(i) =>
      var l := lists[i];
      if studentId in l.assignedStudents then (lists, false)
      else (lists[i := l.(assignedStudents := l.assignedStudents + [studentId])], true)
  }

  /**
   * `unassignWordlistFromStudent`: removes the first occurrence of the
   * student from the first list with the id; reports whether there was
   * one. Nothing else changes.
   */
  function UnassignWordlistFromStudent(lists: seq<Wordlist>, wordlistId: int, studentId: int): (r: (seq<Wordlist>, bool))
    ensures |r.0| == |lists|
    ensures r.1 <==> exists i :: IsFirst(lists, i, ListWithId(wordlistId)) && studentId in lists[i].assignedStudents
    ensures !r.1 ==> r.0 == lists
    ensures forall i :: IsFirst(lists, i, ListWithId(wordlistId)) ==>
      && r.0[i] == lists[i].(assignedStudents := r.0[i].assignedStudents)
      && multiset(r.0[i].assignedStudents) == multiset(lists[i].assignedStudents) - multiset{studentId}
    ensures forall i :: IsFirst(lists, i, ListWithId(wordlistId)) && IndexOf(lists[i].assignedStudents, studentId).Some? ==>
      var k := IndexOf(lists[i].assignedStudents, studentId).value;
      r.0[i].assignedStudents == lists[i].assignedStudents[..k] + lists[i].assignedStudents[k + 1..]
    ensures forall j :: 0 <= j < |lists| && !IsFirst(lists, j, ListWithId(wordlistId)) ==> r.0[j] == lists[j]
    ensures AssignmentsDistinct(lists) ==> AssignmentsDistinct(r.0)
  {
    match FirstIndex(lists, ListWithId(wordlistId))
    case None => (lists, false)
    case Some(i) =>
      var l := lists[i];
      match IndexOf(l.assignedStudents, studentId)
      case None => (lists, false)
      case Some(k) =>
        var remaining := RemoveAt(l.assignedStudents, k);
        RemoveAtKeepsDistinct(l.assignedStudents, k);
        assert remaining == l.assignedStudents[..k] + l.assignedStudents[k + 1..];
        assert multiset(remaining) == multiset(l.assignedStudents) - multiset{studentId};
        (lists[i := l.(assignedStudents := remaining)], true)
  }

  /**
   * Assigning a student who is not on the list yet and then unassigning
   * them restores the store exactly.
   */
  lemma AssignThenUnassign(lists: seq<Wordlist>, wordlistId: int, studentId: int)
    requires forall i :: IsFirst(lists, i, ListWithId(wordlistId)) ==> studentId !in lists[i].assignedStudents
    ensures UnassignWordlistFromStudent(AssignWordlistToStudent(lists, wordlistId, studentId).0, wordlistId, studentId).0 == lists
  {
    var withStudent := AssignWordlistToStudent(lists, wordlistId, studentId).0;
    FirstIndexSameMatches(lists, withStudent, ListWithId(wordlistId));
    match FirstIndex(lists, ListWithId(wordlistId))
    case None =>
    case Some(i) =>
      var a := lists[i].assignedStudents;
      assert withStudent[i].assignedStudents == a + [studentId];
      assert IndexOf(a + [studentId], studentId) == Some(|a|) by {
        assert (a + [studentId])[..|a|] == a;
      }
      assert RemoveAt(a + [studentId], |a|) == a;
      assert withStudent[i := withStudent[i].(assignedStudents := a)] == lists;
  }
}
