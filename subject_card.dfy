/**
  The chapter editor of a subject card (components/SubjectCard.tsx). Each
  edit builds a new chapter list, or a new flag, that the card hands to
  `handleSubjectChange` (App.tsx:622-624), which replaces that field of the
  subject with the card's id in the wizard's list.
 */
module SubjectCard {
  import opened Seqs
  import opened Model

  /** `handleSubjectChange`: the subjects with the given id replaced by `f` of themselves. */
  function ChangeSubject(subjects: seq<SubjectInput>, id: string, f: SubjectInput -> SubjectInput): seq<SubjectInput>
  {
    seq(|subjects|, i requires 0 <= i < |subjects| => if subjects[i].id == id then f(subjects[i]) else subjects[i])
  }

  /**
    An edit that keeps the subject's id keeps the ids of the whole list, and
    touches only the subjects with that id.
   */
  lemma ChangeSubjectSpec(subjects: seq<SubjectInput>, id: string, f: SubjectInput -> SubjectInput)
    requires forall s :: f(s).id == s.id
    ensures var r := ChangeSubject(subjects, id, f);
      |r| == |subjects|
      && forall i :: 0 <= i < |subjects| ==>
        r[i].id == subjects[i].id && (subjects[i].id != id ==> r[i] == subjects[i])
  {
  }

  /** Every edit the card makes keeps the subject's id. */
  lemma CardEditsKeepId(s: SubjectInput, newId: string, chapterId: string, f: ChapterField)
    ensures AddChapter(s, newId).id == s.id && UpdateChapter(s, chapterId, f).id == s.id
    ensures RemoveChapter(s, chapterId).id == s.id && ToggleSubjectPriority(s).id == s.id
  {
  }

  /** The chapter `addChapter` creates; its random id is a parameter. */
  function NewChapter(id: string): Chapter
  {
    Chapter(id, "", 5, false)
  }

  /** `addChapter` (SubjectCard.tsx:15-23): one blank chapter at the end. */
  function AddChapter(s: SubjectInput, newId: string): SubjectInput
  {
    s.(chapters := s.chapters + [NewChapter(newId)])
  }

  /** The chapter fields the card edits, each with its new value. */
  datatype ChapterField = Name(name: string) | Difficulty(difficulty: int) | Priority(isHighPriority: bool)

  /** `{ ...ch, [field]: value }` */
  function SetField(ch: Chapter, f: ChapterField): Chapter
  {
    match f
    case Name(n) => ch.(name := n)
    case Difficulty(d) => ch.(difficulty := d)
    case Priority(p) => ch.(isHighPriority := p)
  }

  /** The chapter holds the field's value. */
  predicate Holds(ch: Chapter, f: ChapterField)
  {
    match f
    case Name(n) => ch.name == n
    case Difficulty(d) => ch.difficulty == d
    case Priority(p) => ch.isHighPriority == p
  }

  /** The two chapters agree on the id and on every field other than the one edited. */
  predicate SameExcept(a: Chapter, b: Chapter, f: ChapterField)
  {
    a.id == b.id
    && (!f.Name? ==> a.name == b.name)
    && (!f.Difficulty? ==> a.difficulty == b.difficulty)
    && (!f.Priority? ==> a.isHighPriority == b.isHighPriority)
  }

  /** `updateChapter` (SubjectCard.tsx:26-31). */
  function UpdateChapter(s: SubjectInput, chapterId: string, f: ChapterField): SubjectInput
  {
    s.(chapters := seq(|s.chapters|, i requires 0 <= i < |s.chapters| =>
      if s.chapters[i].id == chapterId then SetField(s.chapters[i], f) else s.chapters[i]))
  }

  /** `removeChapter` (SubjectCard.tsx:33-36). */
  function RemoveChapter(s: SubjectInput, chapterId: string): SubjectInput
  {
    s.(chapters := Filter(s.chapters, (ch: Chapter) => ch.id != chapterId))
  }

  /** The subject's star (SubjectCard.tsx:57). */
  function ToggleSubjectPriority(s: SubjectInput): SubjectInput
  {
    s.(isHighPriority := !s.isHighPriority)
  }

  /** The star of the chapter drawn at position `k` (SubjectCard.tsx:150). */
  function ToggleChapterPriority(s: SubjectInput, k: nat): SubjectInput
    requires k < |s.chapters|
  {
    UpdateChapter(s, s.chapters[k].id, Priority(!s.chapters[k].isHighPriority))
  }

  predicate UniqueChapterIds(cs: seq<Chapter>)
  {
    forall i, j :: 0 <= i < j < |cs| ==> cs[i].id != cs[j].id
  }

  /** Adding keeps every chapter, in order, and appends exactly the blank one; nothing else changes. */
  lemma AddChapterSpec(s: SubjectInput, newId: string)
    ensures var r := AddChapter(s, newId);
      r.(chapters := s.chapters) == s
      && |r.chapters| == |s.chapters| + 1
      && r.chapters[..|s.chapters|] == s.chapters
      && r.chapters[|s.chapters|] == Chapter(newId, "", 5, false)
  {
  }

  /** Adding a chapter with a fresh id keeps chapter ids unique. */
  lemma AddChapterKeepsUnique(s: SubjectInput, newId: string)
    requires UniqueChapterIds(s.chapters)
    requires forall i :: 0 <= i < |s.chapters| ==> s.chapters[i].id != newId
    ensures UniqueChapterIds(AddChapter(s, newId).chapters)
  {
  }

  /**
    Updating leaves the other chapters as they were; a chapter with that id
    afterwards holds the new value and agrees with its old self on the id
    and on the other fields; nothing outside the chapter list changes.
   */
  lemma UpdateChapterSpec(s: SubjectInput, chapterId: string, f: ChapterField)
    ensures var r := UpdateChapter(s, chapterId, f);
      r.(chapters := s.chapters) == s
      && |r.chapters| == |s.chapters|
      && forall i :: 0 <= i < |s.chapters| ==>
        (s.chapters[i].id != chapterId ==> r.chapters[i] == s.chapters[i])
        && (s.chapters[i].id == chapterId ==> Holds(r.chapters[i], f) && SameExcept(r.chapters[i], s.chapters[i], f))
  {
  }

  /** Making the same edit again changes nothing. */
  lemma UpdateChapterIdempotent(s: SubjectInput, chapterId: string, f: ChapterField)
    ensures UpdateChapter(UpdateChapter(s, chapterId, f), chapterId, f) == UpdateChapter(s, chapterId, f)
  {
    var once := UpdateChapter(s, chapterId, f);
    var twice := UpdateChapter(once, chapterId, f);
    assert twice.chapters == once.chapters;
  }

  /**
    Removing drops every chapter with that id and keeps each other chapter
    as often as before; nothing outside the chapter list changes.
   */
  lemma RemoveChapterSpec(s: SubjectInput, chapterId: string)
    ensures var r := RemoveChapter(s, chapterId);
      r.(chapters := s.chapters) == s
      && (forall ch :: ch in r.chapters <==> ch in s.chapters && ch.id != chapterId)
      && (forall ch: Chapter :: ch.id != chapterId ==> multiset(r.chapters)[ch] == multiset(s.chapters)[ch])
  {
  }

  /** Removing a chapter just added with a fresh id gives the subject back, chapters in their order. */
  lemma RemoveUndoesAdd(s: SubjectInput, newId: string)
    requires forall i :: 0 <= i < |s.chapters| ==> s.chapters[i].id != newId
    ensures RemoveChapter(AddChapter(s, newId), newId) == s
  {
    var p := (ch: Chapter) => ch.id != newId;
    FilterConcat(s.chapters, [NewChapter(newId)], p);
    FilterAll(s.chapters, p);
    assert Filter([NewChapter(newId)], p) == [];
  }

  /** Pressing the subject's star twice restores it; once flips only the flag. */
  lemma SubjectStarTwice(s: SubjectInput)
    ensures ToggleSubjectPriority(s).isHighPriority == !s.isHighPriority
    ensures ToggleSubjectPriority(s).(isHighPriority := s.isHighPriority) == s
    ensures ToggleSubjectPriority(ToggleSubjectPriority(s)) == s
  {
  }

  /**
    With unique chapter ids, a chapter's star flips that chapter's flag only,
    and pressing it twice restores the subject.
   */
  lemma ChapterStarTwice(s: SubjectInput, k: nat)
    requires k < |s.chapters| && UniqueChapterIds(s.chapters)
    ensures var r := ToggleChapterPriority(s, k);
      |r.chapters| == |s.chapters|
      && r.chapters[k] == s.chapters[k].(isHighPriority := !s.chapters[k].isHighPriority)
      && (forall i :: 0 <= i < |s.chapters| && i != k ==> r.chapters[i] == s.chapters[i])
      && ToggleChapterPriority(r, k) == s
  {
    var r := ToggleChapterPriority(s, k);
    var back := ToggleChapterPriority(r, k);
    assert back.chapters == s.chapters;
  }
}
