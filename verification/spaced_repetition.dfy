/**
 * The spaced-repetition review queue: one review record per word, updated
 * by an SM-2 style rule for every graded answer, plus the selection of the
 * next word to practise and the queue statistics.
 *
 * The clock is a parameter: `now` is a timestamp in milliseconds. The ease
 * factor is kept in hundredths (2.5 is 250), which represents every
 * constant of the rule exactly.
 */
module SpacedRepetition {
  import opened Options
  import opened Seqs

  /** Ease of a word that has never been reviewed (2.5). */
  const InitialEase: int := 250
  /** The ease factor never drops below 1.3. */
  const MinEase: int := 130
  /** Ease lost on a failed answer (0.2). */
  const FailurePenalty: int := 20
  /** Lowest quality grade that counts as a correct answer. */
  const PassingQuality: int := 3
  /** Length of one interval day: 24 * 60 * 60 * 1000 milliseconds. */
  const DayMs: int := 86400000
  /** Repetitions from which a word counts as mastered. */
  const MasteredRepetitions: int := 5

  datatype WordItem = WordItem(
    id: string,
    word: string,
    difficulty: real,         // 0..1, informational only
    repetitions: int,
    interval: int,            // days
    ease: int,                // ease factor in hundredths
    nextReview: int,          // ms timestamp
    lastReviewed: Option<int>,
    correctCount: int,
    incorrectCount: int)

  /** The record invariants the scheduler keeps. */
  predicate WellFormed(w: WordItem) {
    && w.repetitions >= 0
    && w.interval >= 1
    && w.ease >= MinEase
    && w.correctCount >= 0
    && w.incorrectCount >= 0
  }

  predicate AllWellFormed(words: seq<WordItem>) {
    forall i :: 0 <= i < |words| ==> WellFormed(words[i])
  }

  function Max(a: int, b: int): int {
    if a >= b then a else b
  }

  /**
   * The SM-2 ease adjustment 0.1 - (5 - q) * (0.08 + (5 - q) * 0.02),
   * scaled by 100.
   */
  function EaseDelta(quality: int): (d: int)
    ensures quality == 5 ==> d == 10
    ensures quality == 4 ==> d == 0
    ensures quality == 3 ==> d == -14
  {
    10 - (5 - quality) * (8 + (5 - quality) * 2)
  }

  /**
   * `Math.round(x / 100)`: the nearest integer to x/100, halves rounded
   * up.
   */
  function RoundHundredths(x: int): (r: int)
    ensures 100 * r - 50 <= x < 100 * r + 50
  {
    (x + 50) / 100
  }

  /** The interval after the third and later consecutive successes. */
  function ScaledInterval(interval: int, ease: int): int {
    RoundHundredths(interval * ease)
  }

  /**
   * One graded answer applied to one record. The new interval is computed
   * with the ease factor the word had BEFORE this answer; the ease factor
   * is adjusted afterwards.
   */
  function Review(w: WordItem, quality: int, now: int): (r: WordItem)
    ensures r.id == w.id && r.word == w.word && r.difficulty == w.difficulty
    ensures r.lastReviewed == Some(now)
    ensures r.nextReview == now + r.interval * DayMs
    ensures r.ease >= MinEase
    ensures r.correctCount + r.incorrectCount == w.correctCount + w.incorrectCount + 1
    ensures quality >= PassingQuality ==>
      && r.correctCount == w.correctCount + 1
      && r.incorrectCount == w.incorrectCount
      && r.repetitions == w.repetitions + 1
    ensures quality < PassingQuality ==>
      && r.incorrectCount == w.incorrectCount + 1
      && r.correctCount == w.correctCount
      && r.repetitions == 0
      && r.interval == 1
      && r.ease == Max(MinEase, w.ease - FailurePenalty)
    ensures WellFormed(w) ==> WellFormed(r)
  {
    var r := if quality >= PassingQuality then
      var reps := w.repetitions + 1;
      var interval :=
        if reps == 1 then 1
        else if reps == 2 then 6
        else ScaledInterval(w.interval, w.ease);
      w.(correctCount := w.correctCount + 1,
         repetitions := reps,
         interval := interval,
         ease := Max(MinEase, w.ease + EaseDelta(quality)))
    else
      w.(incorrectCount := w.incorrectCount + 1,
         repetitions := 0,
         interval := 1,
         ease := Max(MinEase, w.ease - FailurePenalty));
    assert WellFormed(w) && r.repetitions >= 3 ==> r.interval >= 1 by {
      if WellFormed(w) && r.repetitions >= 3 {
        ScaledIntervalAtLeast(w.interval, w.ease);
      }
    }
    r.(lastReviewed := Some(now), nextReview := now + r.interval * DayMs)
  }

  /** With ease at least 1.3, scaling never shrinks a positive interval. */
  lemma ScaledIntervalAtLeast(interval: int, ease: int)
    requires interval >= 1 && ease >= MinEase
    ensures ScaledInterval(interval, ease) >= interval
  {
    assert interval * ease >= interval * 100;
  }

  /**
   * After a correct answer the interval is 1 day for the first success,
   * 6 days for the second, and otherwise the old interval times the old
   * ease factor, rounded.
   */
  lemma SuccessInterval(w: WordItem, quality: int, now: int)
    requires quality >= PassingQuality
    ensures var r := Review(w, quality, now);
      && (r.repetitions == 1 ==> r.interval == 1)
      && (r.repetitions == 2 ==> r.interval == 6)
      && (r.repetitions != 1 && r.repetitions != 2 ==>
            100 * r.interval - 50 <= w.interval * w.ease < 100 * r.interval + 50)
      && r.ease == Max(MinEase, w.ease + EaseDelta(quality))
  {
  }

  /**
   * From the third consecutive success on, a well-formed word's interval
   * never shrinks.
   */
  lemma IntervalGrows(w: WordItem, quality: int, now: int)
    requires WellFormed(w) && quality >= PassingQuality && w.repetitions >= 2
    ensures Review(w, quality, now).interval >= w.interval
  {
    ScaledIntervalAtLeast(w.interval, w.ease);
  }

  function WithId(id: string): WordItem -> bool {
    (w: WordItem) => w.id == id
  }

  function DueAt(now: int): WordItem -> bool {
    (w: WordItem) => w.nextReview <= now
  }

  function IsNew(): WordItem -> bool {
    (w: WordItem) => w.repetitions == 0
  }

  function InReview(): WordItem -> bool {
    (w: WordItem) => w.repetitions > 0
  }

  function IsMastered(): WordItem -> bool {
    (w: WordItem) => w.repetitions >= MasteredRepetitions
  }

  function IsLearning(): WordItem -> bool {
    (w: WordItem) => 0 < w.repetitions < MasteredRepetitions
  }

  /** `dueWords`: the words whose review time has come, in list order. */
  function DueWords(words: seq<WordItem>, now: int): (r: seq<WordItem>)
    ensures forall i :: 0 <= i < |r| ==> r[i] in words && r[i].nextReview <= now
    ensures forall i :: 0 <= i < |words| && words[i].nextReview <= now ==> words[i] in r
    ensures forall w :: multiset(r)[w] == if w.nextReview <= now then multiset(words)[w] else 0
    ensures |r| == Count(words, DueAt(now))
  {
    FilterMultiplicity(words, DueAt(now));
    FilterLength(words, DueAt(now));
    Filter(words, DueAt(now))
  }

  /** `newWords`: the words never answered correctly since their last lapse. */
  function NewWords(words: seq<WordItem>): (r: seq<WordItem>)
    ensures forall i :: 0 <= i < |r| ==> r[i] in words && r[i].repetitions == 0
    ensures forall i :: 0 <= i < |words| && words[i].repetitions == 0 ==> words[i] in r
    ensures forall w :: multiset(r)[w] == if w.repetitions == 0 then multiset(words)[w] else 0
  {
    FilterMultiplicity(words, IsNew());
    Filter(words, IsNew())
  }

  /** `reviewWords`: the words with at least one current success. */
  function ReviewWords(words: seq<WordItem>): (r: seq<WordItem>)
    ensures forall i :: 0 <= i < |r| ==> r[i] in words && r[i].repetitions > 0
    ensures forall i :: 0 <= i < |words| && words[i].repetitions > 0 ==> words[i] in r
    ensures forall w :: multiset(r)[w] == if w.repetitions > 0 then multiset(words)[w] else 0
  {
    FilterMultiplicity(words, InReview());
    Filter(words, InReview())
  }

  /** The three queues keep list order: each distributes over concatenation. */
  lemma QueuesKeepOrder(a: seq<WordItem>, b: seq<WordItem>, now: int)
    ensures DueWords(a + b, now) == DueWords(a, now) + DueWords(b, now)
    ensures NewWords(a + b) == NewWords(a) + NewWords(b)
    ensures ReviewWords(a + b) == ReviewWords(a) + ReviewWords(b)
  {
    FilterAppend(a, b, DueAt(now));
    FilterAppend(a, b, IsNew());
    FilterAppend(a, b, InReview());
  }

  /** With no negative repetition counts, every word is either new or in review. */
  lemma NewAndReviewSplit(words: seq<WordItem>)
    requires forall i :: 0 <= i < |words| ==> words[i].repetitions >= 0
    ensures |NewWords(words)| + |ReviewWords(words)| == |words|
    ensures multiset(NewWords(words)) + multiset(ReviewWords(words)) == multiset(words)
  {
    FilterSplit(words, IsNew(), InReview());
  }

  /**
   * `getNextWord`: the first due word in list order; when nothing is due,
   * the first new word; otherwise nothing.
   */
  function NextWord(words: seq<WordItem>, now: int): (r: Option<WordItem>)
    ensures r.Some? <==> exists i :: 0 <= i < |words| && (words[i].nextReview <= now || words[i].repetitions == 0)
    ensures forall i :: IsFirst(words, i, DueAt(now)) ==> r == Some(words[i])
    ensures (forall i :: 0 <= i < |words| ==> words[i].nextReview > now) ==>
      forall i :: IsFirst(words, i, IsNew()) ==> r == Some(words[i])
  {
    FilterHead(words, DueAt(now));
    FilterHead(words, IsNew());
    var due := DueWords(words, now);
    if |due| > 0 then Some(due[0])
    else
      var newOnes := NewWords(words);
      if |newOnes| > 0 then Some(newOnes[0]) else None
  }

  /**
   * `processAnswer`: the first word with the given id is reviewed; every
   * other word is left as it was. An unknown id changes nothing.
   */
  function ProcessAnswer(words: seq<WordItem>, wordId: string, quality: int, now: int): (r: seq<WordItem>)
    ensures |r| == |words|
    ensures forall j :: 0 <= j < |words| ==>
      r[j] == (if IsFirst(words, j, WithId(wordId)) then Review(words[j], quality, now) else words[j])
    ensures (forall j :: 0 <= j < |words| ==> words[j].id != wordId) ==> r == words
    ensures forall j :: 0 <= j < |words| ==> r[j].id == words[j].id
    ensures AllWellFormed(words) ==> AllWellFormed(r)
  {
    match FirstIndex(words, WithId(wordId))
    case None => words
    case Some(i) => words[i := Review(words[i], quality, now)]
  }

  /** The record `addWord` creates: new, due immediately, never reviewed. */
  function NewWord(id: string, word: string, difficulty: real, now: int): (w: WordItem)
    ensures WellFormed(w)
    ensures w.id == id && w.word == word && w.difficulty == difficulty
    ensures w.repetitions == 0 && w.interval == 1 && w.ease == InitialEase
    ensures w.nextReview == now && w.lastReviewed.None?
    ensures w.correctCount == 0 && w.incorrectCount == 0
  {
    WordItem(id, word, difficulty, 0, 1, InitialEase, now, None, 0, 0)
  }

  /**
   * `addWord`: appends one fresh record and leaves the existing ones
   * untouched. The id is supplied by the caller (the source derives it
   * from the clock).
   */
  function AddWord(words: seq<WordItem>, id: string, word: string, difficulty: real, now: int): (r: seq<WordItem>)
    ensures |r| == |words| + 1
    ensures r[..|words|] == words
    ensures r[|words|] == NewWord(id, word, difficulty, now)
    ensures AllWellFormed(words) ==> AllWellFormed(r)
  {
    words + [NewWord(id, word, difficulty, now)]
  }

  /**
   * A word added at `now` is due at once, so the next pick is the earlier
   * due word if there is one and otherwise the added word itself, even
   * ahead of older new words.
   */
  lemma {:induction false} AddedWordIsPicked(words: seq<WordItem>, id: string, word: string, difficulty: real, now: int)
    ensures NextWord(AddWord(words, id, word, difficulty, now), now) ==
      if exists i :: 0 <= i < |words| && words[i].nextReview <= now
      then NextWord(words, now)
      else Some(NewWord(id, word, difficulty, now))
  {
    var w := NewWord(id, word, difficulty, now);
    FilterAppend(words, [w], DueAt(now));
    assert Filter([w], DueAt(now)) == [w];
    if exists i :: 0 <= i < |words| && words[i].nextReview <= now {
      var i :| 0 <= i < |words| && words[i].nextReview <= now;
      assert words[i] in DueWords(words, now);
    } else {
      FilterHead(words, DueAt(now));
    }
  }

  datatype Stats = Stats(total: int, mastered: int, learning: int, newCount: int, dueToday: int)

  /** Mastered, learning and new words are disjoint and, with no negative count, cover the list. */
  lemma {:induction false} StatsPartition(words: seq<WordItem>)
    requires forall i :: 0 <= i < |words| ==> words[i].repetitions >= 0
    ensures |Filter(words, IsMastered())| + |Filter(words, IsLearning())| + |Filter(words, IsNew())| == |words|
    decreases |words|
  {
    if |words| > 0 {
      StatsPartition(words[1..]);
    }
  }

  /** `getStats`. */
  function GetStats(words: seq<WordItem>, now: int): (r: Stats)
    ensures r.total == |words|
    ensures r.mastered == Count(words, IsMastered())
    ensures r.learning == Count(words, IsLearning())
    ensures r.newCount == Count(words, IsNew())
    ensures r.dueToday == Count(words, DueAt(now))
    ensures (forall i :: 0 <= i < |words| ==> words[i].repetitions >= 0) ==>
      r.mastered + r.learning + r.newCount == r.total
    ensures 0 <= r.dueToday <= r.total
    ensures r.dueToday == 0 <==> forall i :: 0 <= i < |words| ==> words[i].nextReview > now
    ensures r.newCount == 0 <==> forall i :: 0 <= i < |words| ==> words[i].repetitions != 0
  {
    assert (forall i :: 0 <= i < |words| ==> words[i].repetitions >= 0) ==>
      |Filter(words, IsMastered())| + |Filter(words, IsLearning())| + |Filter(words, IsNew())| == |words| by {
      if forall i :: 0 <= i < |words| ==> words[i].repetitions >= 0 {
        StatsPartition(words);
      }
    }
    FilterHead(words, DueAt(now));
    FilterHead(words, IsNew());
    FilterLength(words, IsMastered());
    FilterLength(words, IsLearning());
    FilterLength(words, IsNew());
    Stats(
      |words|,
      |Filter(words, IsMastered())|,
      |Filter(words, IsLearning())|,
      |NewWords(words)|,
      |DueWords(words, now)|)
  }

  /** The store operations that change the word list. */
  datatype Op =
    | Answer(wordId: string, quality: int, at: int)
    | Add(newId: string, word: string, difficulty: real, addedAt: int)

  function Apply(words: seq<WordItem>, op: Op): seq<WordItem> {
    match op
    case Answer(id, q, t) => ProcessAnswer(words, id, q, t)
    case Add(id, w, d, t) => AddWord(words, id, w, d, t)
  }

  function Run(words: seq<WordItem>, ops: seq<Op>): seq<WordItem>
    decreases |ops|
  {
    if |ops| == 0 then words else Run(Apply(words, ops[0]), ops[1..])
  }

  /**
   * Whatever answers and additions happen, every ease factor stays at
   * least 1.3, every interval at least one day and no count goes negative.
   */
  lemma {:induction false} RunKeepsWellFormed(words: seq<WordItem>, ops: seq<Op>)
    requires AllWellFormed(words)
    ensures AllWellFormed(Run(words, ops))
    decreases |ops|
  {
    if |ops| > 0 {
      RunKeepsWellFormed(Apply(words, ops[0]), ops[1..]);
    }
  }

  /** The worked examples of the SM-2 rule: two successes, then a lapse. */
  lemma ReviewExamples(t: int)
    ensures var w := Review(NewWord("w", "apple", 0.5, 0), 4, t);
      w.repetitions == 1 && w.interval == 1 && w.ease == 250 && w.correctCount == 1 && w.nextReview == t + DayMs
    ensures var w := Review(WordItem("w", "apple", 0.5, 1, 1, 250, 0, None, 1, 0), 5, t);
      w.repetitions == 2 && w.interval == 6 && w.ease == 260
    ensures var w := Review(WordItem("w", "apple", 0.5, 2, 6, 260, 0, None, 2, 0), 3, t);
      w.repetitions == 3 && w.interval == 16 && w.ease == 246
    ensures var w := Review(WordItem("w", "apple", 0.5, 3, 10, 200, 0, None, 3, 0), 1, t);
      w.repetitions == 0 && w.interval == 1 && w.ease == 180 && w.incorrectCount == 1 && w.nextReview == t + DayMs
  {
  }
}
