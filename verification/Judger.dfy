/** Batched judging (jev_service/judger.py): many requests are flattened into rows, scored in chunks,
  and the results are sliced back. Judge is the reference: every question answered on its own. */
module Judger {
  import opened Common

  datatype Kind = NoulRow | ChoiceRow | ScoreRow

  /** A question item; Missing is a falsy one, Unsupported one of another type. */
  datatype Question =
    | Missing
    | Unsupported
    | Noul(instructions: string)
    | Choice(instructions: string, options: seq<(string, string)>)
    | Score(instructions: string, levels: seq<string>)

  predicate DistinctNames(qs: seq<(string, Question)>) {
    forall i, j :: 0 <= i < j < |qs| ==> qs[i].0 != qs[j].0
  }

  /** A dict of questions in its insertion order. */
  type Questions = qs: seq<(string, Question)> | DistinctNames(qs) witness []

  datatype Request = Request(state: string, questions: Questions)

  datatype Entry = Entry(name: string, kind: Kind, prompt: string, keys: seq<string>)

  datatype Answer<A> = EmptyChoice | EmptyScore | Scored(result: A)

  type Answers<A> = map<string, Answer<A>>

  /** The foreign parts: rendering a prompt that fits the budget, the logits of one prompt row, and
    reading a result off them. A row's logits depend on that row's prompt only. */
  datatype Engine<!L, !A> = Engine(
    render: (string, Question) -> string,
    logits: string -> L,
    read: (Kind, L, seq<string>) -> A,
    chunk: nat)

  const LABELS := 26

  function Labelled(keys: seq<string>): seq<string> {
    if |keys| <= LABELS then keys else keys[..LABELS]
  }

  function Keys(options: seq<(string, string)>): seq<string> {
    if options == [] then [] else [options[0].0] + Keys(options[1..])
  }

  /** Dict keys built from a list: first occurrences, in order. */
  function Deduplicated(levels: seq<string>): seq<string> {
    if levels == [] then []
    else
      var init, last := Deduplicated(levels[..|levels|-1]), levels[|levels|-1];
      if last in init then init else init + [last]
  }

  // ---------------------------------------------------------------- reference

  /** The row a question is scored by, if it is scored. */
  function RowOf<L, A>(e: Engine<L, A>, state: string, name: string, q: Question): Option<Entry> {
    match q
    case Missing => None
    case Unsupported => None
    case Noul(_) => Some(Entry(name, NoulRow, e.render(state, q), []))
    case Choice(_, options) =>
      if options == [] then None else Some(Entry(name, ChoiceRow, e.render(state, q), Labelled(Keys(options))))
    case Score(_, levels) =>
      if levels == [] then None else Some(Entry(name, ScoreRow, e.render(state, q), Labelled(Deduplicated(levels))))
  }

  function ScoreRowAlone<L, A>(e: Engine<L, A>, row: Entry): Answer<A> {
    Scored(e.read(row.kind, e.logits(row.prompt), row.keys))
  }

  /** A question answered on its own: no answer, a fixed empty answer, or its own row's score. */
  function Verdict<L, A>(e: Engine<L, A>, state: string, name: string, q: Question): Option<Answer<A>> {
    if q.Choice? && q.options == [] then Some(EmptyChoice)
    else if q.Score? && q.levels == [] then Some(EmptyScore)
    else
      match RowOf(e, state, name, q)
      case None => None
      case Some(row) => Some(ScoreRowAlone(e, row))
  }

  /** A request answered question by question. */
  function Judge<L, A>(e: Engine<L, A>, r: Request): Answers<A> {
    map i | 0 <= i < |r.questions| && Verdict(e, r.state, r.questions[i].0, r.questions[i].1).Some?
      :: r.questions[i].0 := Verdict(e, r.state, r.questions[i].0, r.questions[i].1).value
  }

  // ---------------------------------------------------------------- what a row and an answer must be

  /** Label i stands for option i, as far as the 26 labels go. */
  ghost predicate ChoiceKeys(options: seq<(string, string)>, keys: seq<string>) {
    && |keys| == (if |options| <= 26 then |options| else 26)
    && forall i :: 0 <= i < |keys| ==> keys[i] == options[i].0
  }

  /** The places at which a level occurs for the first time, in order. */
  ghost predicate FirstPlaces(levels: seq<string>, places: seq<nat>) {
    && (forall i, j :: 0 <= i < j < |places| ==> places[i] < places[j])
    && (forall p :: 0 <= p < |levels| ==> (p in places <==> levels[p] !in levels[..p]))
    && (forall i :: 0 <= i < |places| ==> places[i] < |levels|)
  }

  ghost predicate KeysAt(levels: seq<string>, places: seq<nat>, keys: seq<string>)
    requires forall i :: 0 <= i < |places| ==> places[i] < |levels|
  {
    && |keys| == (if |places| <= 26 then |places| else 26)
    && forall i :: 0 <= i < |keys| ==> keys[i] == levels[places[i]]
  }

  /** Label i stands for the i-th distinct level, as far as the 26 labels go. */
  ghost predicate ScoreKeys(levels: seq<string>, keys: seq<string>) {
    exists places :: FirstPlaces(levels, places) && KeysAt(levels, places, keys)
  }

  predicate Scoreable(q: Question) {
    q.Noul? || (q.Choice? && q.options != []) || (q.Score? && q.levels != [])
  }

  /** The row a question must be scored by: its own prompt, its own kind, its own keys. */
  ghost predicate RowFor<L, A>(e: Engine<L, A>, state: string, name: string, q: Question, row: Entry) {
    && Scoreable(q) && row.name == name && row.prompt == e.render(state, q)
    && (q.Noul? ==> row.kind == NoulRow && row.keys == [])
    && (q.Choice? ==> row.kind == ChoiceRow && ChoiceKeys(q.options, row.keys))
    && (q.Score? ==> row.kind == ScoreRow && ScoreKeys(q.levels, row.keys))
  }

  /** The answer a question must get: none, a fixed empty one, or what is read off its row. */
  ghost predicate AnswerFor<L, A>(e: Engine<L, A>, state: string, name: string, q: Question, answers: Answers<A>) {
    match q
    case Missing => name !in answers
    case Unsupported => name !in answers
    case _ =>
      name in answers &&
      if !Scoreable(q) then answers[name] == if q.Choice? then EmptyChoice else EmptyScore
      else exists row ::
        RowFor(e, state, name, q, row) && answers[name] == Scored(e.read(row.kind, e.logits(row.prompt), row.keys))
  }

  /** Every question has the answer it must get, and nothing else is answered. */
  ghost predicate AnswersFor<L, A>(e: Engine<L, A>, r: Request, answers: Answers<A>) {
    && (forall i :: 0 <= i < |r.questions| ==>
         AnswerFor(e, r.state, r.questions[i].0, r.questions[i].1, answers))
    && (forall name :: name in answers ==> exists i :: 0 <= i < |r.questions| && r.questions[i].0 == name)
  }

  lemma {:induction false} KeysAreNames(options: seq<(string, string)>)
    ensures |Keys(options)| == |options| && forall i :: 0 <= i < |options| ==> Keys(options)[i] == options[i].0
  {
    if options != [] {
      KeysAreNames(options[1..]);
    }
  }

  lemma PlacesSnoc(levels: seq<string>, last: string, places: seq<nat>)
    requires FirstPlaces(levels, places)
    ensures FirstPlaces(levels + [last], if last in levels then places else places + [|levels|])
  {
    var all, places' := levels + [last], if last in levels then places else places + [|levels|];
    forall p | 0 <= p < |all| ensures p in places' <==> all[p] !in all[..p] {
      if p < |levels| {
        assert all[..p] == levels[..p] && all[p] == levels[p];
      } else {
        assert all[..p] == levels;
      }
    }
  }

  lemma {:induction false} SameLevels(levels: seq<string>)
    ensures forall l :: l in Deduplicated(levels) <==> l in levels
  {
    if levels != [] {
      var init, last := levels[..|levels|-1], levels[|levels|-1];
      SameLevels(init);
      assert levels == init + [last];
    }
  }

  /** The levels at those places. */
  ghost predicate Picked(levels: seq<string>, places: seq<nat>, ks: seq<string>) {
    |ks| == |places| && forall i :: 0 <= i < |ks| ==> places[i] < |levels| && ks[i] == levels[places[i]]
  }

  lemma PickedSnoc(levels: seq<string>, last: string, places: seq<nat>, ks: seq<string>)
    requires Picked(levels, places, ks)
    ensures Picked(levels + [last], places, ks)
    ensures Picked(levels + [last], places + [|levels|], ks + [last])
  {
  }

  lemma LevelsSnoc(levels: seq<string>, last: string)
    ensures Deduplicated(levels + [last]) == Deduplicated(levels) + if last in levels then [] else [last]
  {
    SameLevels(levels);
    assert (levels + [last])[..|levels|] == levels;
  }

  lemma NoLevels()
    ensures FirstPlaces([], []) && Picked([], [], Deduplicated([]))
  {
  }

  lemma {:induction false} DistinctLevels(levels: seq<string>) returns (places: seq<nat>)
    ensures FirstPlaces(levels, places) && Picked(levels, places, Deduplicated(levels))
  {
    places := [];
    NoLevels();
    hide *;
    if levels != [] {
      var init, last := levels[..|levels|-1], levels[|levels|-1];
      assert levels == init + [last];
      places := DistinctLevels(init);
      PlacesSnoc(init, last, places);
      PickedSnoc(init, last, places, Deduplicated(init));
      LevelsSnoc(init, last);
      if last in init {
        assert Deduplicated(init) + [] == Deduplicated(init);
      } else {
        places := places + [|init|];
      }
    }
  }

  lemma RowIsRight<L, A>(e: Engine<L, A>, state: string, name: string, q: Question)
    ensures RowOf(e, state, name, q).Some? <==> Scoreable(q)
    ensures Scoreable(q) ==> RowFor(e, state, name, q, RowOf(e, state, name, q).value)
  {
    if q.Choice? {
      KeysAreNames(q.options);
    } else if q.Score? {
      var places := DistinctLevels(q.levels);
      if q.levels != [] {
        assert KeysAt(q.levels, places, RowOf(e, state, name, q).value.keys);
      }
    }
  }

  lemma VerdictIsRight<L, A>(e: Engine<L, A>, state: string, name: string, q: Question, answers: Answers<A>)
    requires match Verdict(e, state, name, q)
      case None => name !in answers
      case Some(a) => name in answers && answers[name] == a
    ensures AnswerFor(e, state, name, q, answers)
  {
    RowIsRight(e, state, name, q);
    hide RowOf, RowFor;
  }

  /** Judging question by question gives every question the answer it must get. */
  lemma JudgeIsRight<L, A>(e: Engine<L, A>, r: Request)
    ensures AnswersFor(e, r, Judge(e, r))
  {
    hide Verdict, AnswerFor;
    forall i | 0 <= i < |r.questions|
      ensures AnswerFor(e, r.state, r.questions[i].0, r.questions[i].1, Judge(e, r))
    {
      VerdictIsRight(e, r.state, r.questions[i].0, r.questions[i].1, Judge(e, r));
    }
  }

  // ---------------------------------------------------------------- building rows

  /** The answers that need no scoring. */
  function Rejections<A>(qs: seq<(string, Question)>): Answers<A> {
    if qs == [] then map[]
    else
      var answers, last := Rejections(qs[..|qs|-1]), qs[|qs|-1];
      if last.1.Choice? && last.1.options == [] then answers[last.0 := EmptyChoice]
      else if last.1.Score? && last.1.levels == [] then answers[last.0 := EmptyScore]
      else answers
  }

  function Rows<L, A>(e: Engine<L, A>, state: string, qs: seq<(string, Question)>): seq<Entry> {
    if qs == [] then []
    else
      var rows, last := Rows(e, state, qs[..|qs|-1]), qs[|qs|-1];
      match RowOf(e, state, last.0, last.1)
      case None => rows
      case Some(row) => rows + [row]
  }

  /** Row j belongs to question places[j]; together they are the scoreable questions, in order. */
  ghost predicate RowsAt<L, A>(e: Engine<L, A>, state: string, qs: seq<(string, Question)>, rows: seq<Entry>,
                               places: seq<nat>) {
    && |places| == |rows|
    && (forall i, j :: 0 <= i < j < |places| ==> places[i] < places[j])
    && (forall p :: 0 <= p < |qs| ==> (p in places <==> Scoreable(qs[p].1)))
    && (forall j :: 0 <= j < |rows| ==>
         places[j] < |qs| && RowFor(e, state, qs[places[j]].0, qs[places[j]].1, rows[j]))
  }

  ghost predicate RowsFor<L, A>(e: Engine<L, A>, state: string, qs: seq<(string, Question)>, rows: seq<Entry>) {
    exists places :: RowsAt(e, state, qs, rows, places)
  }

  /** The immediate answers: the empty choices and scores, and no other question. */
  ghost predicate RejectionsFor<A>(qs: seq<(string, Question)>, answers: Answers<A>) {
    && (forall i :: 0 <= i < |qs| ==>
         (qs[i].0 in answers <==> (qs[i].1.Choice? || qs[i].1.Score?) && !Scoreable(qs[i].1)))
    && (forall i :: 0 <= i < |qs| && qs[i].0 in answers ==>
         answers[qs[i].0] == if qs[i].1.Choice? then EmptyChoice else EmptyScore)
    && (forall name :: name in answers ==> exists i :: 0 <= i < |qs| && qs[i].0 == name)
  }

  lemma RowsSnoc<L, A>(e: Engine<L, A>, state: string, init: seq<(string, Question)>, last: (string, Question),
                      rows: seq<Entry>, places: seq<nat>, row: Entry)
    requires RowsAt(e, state, init, rows, places)
    requires Scoreable(last.1) ==> RowFor(e, state, last.0, last.1, row)
    ensures Scoreable(last.1) ==> RowsAt(e, state, init + [last], rows + [row], places + [|init|])
    ensures !Scoreable(last.1) ==> RowsAt(e, state, init + [last], rows, places)
  {
    hide RowFor;
  }

  lemma {:induction false} RowsAreRight<L, A>(e: Engine<L, A>, state: string, qs: seq<(string, Question)>)
    returns (places: seq<nat>)
    ensures RowsAt(e, state, qs, Rows(e, state, qs), places)
  {
    places := [];
    if qs != [] {
      var init, last := qs[..|qs|-1], qs[|qs|-1];
      places := RowsAreRight(e, state, init);
      hide RowsAt, RowFor, RowOf;
      var row := RowOf(e, state, last.0, last.1);
      RowIsRight(e, state, last.0, last.1);
      assert qs == init + [last];
      RowsSnoc(e, state, init, last, Rows(e, state, init), places,
               if row.Some? then row.value else Entry("", NoulRow, "", []));
      if row.Some? {
        places := places + [|init|];
      }
    }
  }

  lemma RejectionsSnoc<A>(init: seq<(string, Question)>, last: (string, Question), answers: Answers<A>)
    requires RejectionsFor(init, answers) && forall i :: 0 <= i < |init| ==> init[i].0 != last.0
    ensures var (name, q) := last;
      RejectionsFor(init + [last],
        if Scoreable(q) || q.Missing? || q.Unsupported? then answers
        else answers[name := if q.Choice? then EmptyChoice else EmptyScore])
  {
    var qs := init + [last];
    assert forall i :: 0 <= i < |init| ==> qs[i] == init[i];
    assert qs[|init|] == last;
  }

  lemma {:induction false} RejectionsAreRight<A>(qs: Questions)
    ensures RejectionsFor<A>(qs, Rejections(qs))
    decreases |qs|
  {
    if qs != [] {
      var init: Questions, last := qs[..|qs|-1], qs[|qs|-1];
      RejectionsAreRight<A>(init);
      hide RejectionsFor;
      RejectionsSnoc<A>(init, last, Rejections(init));
      assert qs == init + [last];
    }
  }

  method BuildEntries<L, A>(e: Engine<L, A>, r: Request) returns (entries: seq<Entry>, answers: Answers<A>)
    ensures entries == Rows(e, r.state, r.questions)
    ensures answers == Rejections(r.questions)
    ensures RowsFor(e, r.state, r.questions, entries) && RejectionsFor(r.questions, answers)
  {
    entries, answers := [], map[];
    for i := 0 to |r.questions|
      invariant entries == Rows(e, r.state, r.questions[..i])
      invariant answers == Rejections(r.questions[..i])
    {
      var (name, q) := r.questions[i];
      assert r.questions[..i+1][..i] == r.questions[..i];
      match q
      case Missing =>
      case Noul(_) =>
        entries := entries + [Entry(name, NoulRow, e.render(r.state, q), [])];
      case Choice(_, options) =>
        if options == [] {
          answers := answers[name := EmptyChoice];
        } else {
          entries := entries + [Entry(name, ChoiceRow, e.render(r.state, q), Labelled(Keys(options)))];
        }
      case Score(_, levels) =>
        if levels == [] {
          answers := answers[name := EmptyScore];
        } else {
          entries := entries + [Entry(name, ScoreRow, e.render(r.state, q), Labelled(Deduplicated(levels)))];
        }
      case Unsupported =>
    }
    assert r.questions[..|r.questions|] == r.questions;
    ghost var places := RowsAreRight(e, r.state, r.questions);
    RejectionsAreRight<A>(r.questions);
  }

  // ---------------------------------------------------------------- scoring rows in chunks

  /** Every row scored on its own, in order. */
  ghost predicate AllScored<L, A>(e: Engine<L, A>, entries: seq<Entry>, results: seq<Answer<A>>) {
    && |results| == |entries|
    && forall i :: 0 <= i < |entries| ==> results[i] == ScoreRowAlone(e, entries[i])
  }

  /** One forward pass over a chunk's prompts. */
  method Forward<L, A>(e: Engine<L, A>, prompts: seq<string>) returns (batchLogits: seq<L>)
    ensures |batchLogits| == |prompts|
    ensures forall i :: 0 <= i < |prompts| ==> batchLogits[i] == e.logits(prompts[i])
  {
    batchLogits := seq(|prompts|, i requires 0 <= i < |prompts| => e.logits(prompts[i]));
  }

  method ScoreFlat<L, A>(e: Engine<L, A>, entries: seq<Entry>) returns (results: seq<Answer<A>>)
    requires e.chunk >= 1
    ensures AllScored(e, entries, results)
  {
    results := [];
    var start := 0;
    while start < |entries|
      invariant 0 <= start
      invariant |results| == if start <= |entries| then start else |entries|
      invariant AllScored(e, entries[..|results|], results)
      decreases |entries| - start
    {
      var end := if start + e.chunk <= |entries| then start + e.chunk else |entries|;
      var group := entries[start..end];
      var prompts := seq(|group|, i requires 0 <= i < |group| => group[i].prompt);
      var batchLogits := Forward(e, prompts);
      for idx := 0 to |group|
        invariant |results| == start + idx
        invariant AllScored(e, entries[..start + idx], results)
      {
        results := results + [Scored(e.read(group[idx].kind, batchLogits[idx], group[idx].keys))];
      }
      start := start + e.chunk;
    }
    assert entries[..|results|] == entries;
  }

  // ---------------------------------------------------------------- merging results back

  ghost function ScoreMap<L, A>(e: Engine<L, A>, entries: seq<Entry>): Answers<A> {
    if entries == [] then map[]
    else
      var last := entries[|entries|-1];
      ScoreMap(e, entries[..|entries|-1])[last.name := ScoreRowAlone(e, last)]
  }

  /** The answers of the rows and rejections of a prefix, extended by one question's verdict. */
  lemma MergedSnoc<L, A>(e: Engine<L, A>, state: string, qs: Questions)
    requires qs != []
    ensures var init, last := qs[..|qs|-1], qs[|qs|-1];
      var m := Rejections(init) + ScoreMap(e, Rows(e, state, init));
      last.0 !in m ==>
        Rejections(qs) + ScoreMap(e, Rows(e, state, qs)) ==
          match Verdict(e, state, last.0, last.1)
          case None => m
          case Some(a) => m[last.0 := a]
  {
    var init, last := qs[..|qs|-1], qs[|qs|-1];
    var rows := Rows(e, state, init);
    match RowOf(e, state, last.0, last.1)
    case None =>
    case Some(row) => assert (rows + [row])[..|rows|] == rows;
  }

  lemma JudgeNames<L, A>(e: Engine<L, A>, state: string, qs: Questions, name: string)
    requires forall i :: 0 <= i < |qs| ==> qs[i].0 != name
    ensures name !in Judge(e, Request(state, qs))
  {
  }

  lemma JudgeNamed<L, A>(e: Engine<L, A>, state: string, qs: Questions, i: nat)
    requires i < |qs|
    ensures var m, v := Judge(e, Request(state, qs)), Verdict(e, state, qs[i].0, qs[i].1);
      && (qs[i].0 in m <==> v.Some?)
      && (v.Some? ==> m[qs[i].0] == v.value)
  {
    hide Verdict;
  }

  lemma JudgeSnocAt<L, A>(e: Engine<L, A>, state: string, qs: Questions, init: Questions, name: string)
    requires qs != [] && init == qs[..|qs|-1]
    ensures var m, m' := Judge(e, Request(state, qs)), Judge(e, Request(state, init));
      var last := qs[|qs|-1];
      var v := Verdict(e, state, last.0, last.1);
      && (name in m <==> if name == last.0 then v.Some? else name in m')
      && (name in m ==> m[name] == if name == last.0 then v.value else m'[name])
  {
    hide Judge, Verdict;
    if i :| 0 <= i < |qs| && qs[i].0 == name {
      JudgeNamed(e, state, qs, i);
      if i < |init| {
        JudgeNamed(e, state, init, i);
      }
    } else {
      JudgeNames(e, state, qs, name);
      JudgeNames(e, state, init, name);
    }
  }

  lemma JudgeSnoc<L, A>(e: Engine<L, A>, state: string, qs: Questions, init: Questions)
    requires qs != [] && init == qs[..|qs|-1]
    ensures var last, m := qs[|qs|-1], Judge(e, Request(state, init));
      Judge(e, Request(state, qs)) ==
        match Verdict(e, state, last.0, last.1)
        case None => m
        case Some(a) => m[last.0 := a]
  {
    hide Judge, Verdict;
    assert forall i :: 0 <= i < |init| ==> init[i].0 != qs[|qs|-1].0;
    hide DistinctNames;
    JudgeNames(e, state, init, qs[|qs|-1].0);
    var m, m' := Judge(e, Request(state, qs)), Judge(e, Request(state, init));
    forall name: string
      ensures name in m <==>
        if name == qs[|qs|-1].0 then Verdict(e, state, name, qs[|qs|-1].1).Some? else name in m'
      ensures name in m ==>
        m[name] == if name == qs[|qs|-1].0 then Verdict(e, state, name, qs[|qs|-1].1).value else m'[name]
    {
      JudgeSnocAt(e, state, qs, init, name);
    }
  }

  /** Rejections and scores together are the verdicts, whatever row came from which question. */
  lemma {:induction false} MergedIsVerdicts<L, A>(e: Engine<L, A>, state: string, qs: Questions)
    ensures Rejections(qs) + ScoreMap(e, Rows(e, state, qs)) == Judge(e, Request(state, qs))
    decreases |qs|
  {
    if qs != [] {
      var init: Questions, last := qs[..|qs|-1], qs[|qs|-1];
      JudgeSnoc(e, state, qs, init);
      hide Judge, Verdict, Rows, RowOf, ScoreMap, Rejections;
      MergedIsVerdicts(e, state, init);
      MergedSnoc(e, state, qs);
      JudgeNames(e, state, init, last.0);
    }
  }

  /** Each row's result joins the answers under its question's name. */
  method MergeAnswers<L, A>(e: Engine<L, A>, r: Request, entries: seq<Entry>, scored: seq<Answer<A>>,
                            answers: Answers<A>)
    returns (merged: Answers<A>)
    requires entries == Rows(e, r.state, r.questions) && answers == Rejections(r.questions)
    requires AllScored(e, entries, scored)
    ensures merged == Judge(e, r)
  {
    hide Rows, Rejections, Judge, RowOf, ScoreRowAlone;
    merged := answers;
    for i := 0 to |entries|
      invariant merged == answers + ScoreMap(e, entries[..i])
    {
      assert entries[..i+1][..i] == entries[..i];
      merged := merged[entries[i].name := scored[i]];
    }
    assert entries[..|entries|] == entries;
    MergedIsVerdicts(e, r.state, r.questions);
  }

  /** An answer does not depend on which other questions share the request. */
  lemma QuestionAlone<L, A>(e: Engine<L, A>, r: Request, i: nat)
    requires i < |r.questions|
    ensures var (name, q) := r.questions[i];
      var alone := Judge(e, Request(r.state, [(name, q)]));
      && (name in Judge(e, r) <==> name in alone)
      && (name in alone ==> Judge(e, r)[name] == alone[name])
  {
    var (name, q) := r.questions[i];
    assert [(name, q)][0] == (name, q);
  }

  method JudgeBatch<L, A>(e: Engine<L, A>, r: Request) returns (answers: Answers<A>)
    requires e.chunk >= 1
    ensures answers == Judge(e, r) && AnswersFor(e, r, answers)
  {
    hide AnswersFor, RowsFor, RejectionsFor;
    JudgeIsRight(e, r);
    var entries, rejected := BuildEntries(e, r);
    var scored := ScoreFlat(e, entries);
    answers := MergeAnswers(e, r, entries, scored, rejected);
  }

  method BuildAll<L, A>(e: Engine<L, A>, batch: seq<Request>)
    returns (rows: seq<seq<Entry>>, rejected: seq<Answers<A>>, flat: seq<Entry>)
    ensures |rows| == |rejected| == |batch| && flat == Flatten(rows)
    ensures forall k :: 0 <= k < |batch| ==>
      rows[k] == Rows(e, batch[k].state, batch[k].questions) && rejected[k] == Rejections(batch[k].questions)
  {
    hide Rows, Rejections, RowsFor, RejectionsFor;
    rows, rejected, flat := [], [], [];
    for i := 0 to |batch|
      invariant |rows| == |rejected| == i && flat == Flatten(rows)
      invariant forall k :: 0 <= k < i ==>
        rows[k] == Rows(e, batch[k].state, batch[k].questions) && rejected[k] == Rejections(batch[k].questions)
    {
      var entries, answers := BuildEntries(e, batch[i]);
      assert (rows + [entries])[..i] == rows;
      rows, rejected, flat := rows + [entries], rejected + [answers], flat + entries;
    }
  }

  lemma FlattenNone()
    ensures Flatten<Entry>([]) == []
  {
  }

  lemma SliceScored<L, A>(e: Engine<L, A>, flat: seq<Entry>, scored: seq<Answer<A>>, c: nat, rows: seq<Entry>)
    requires AllScored(e, flat, scored) && c + |rows| <= |flat| && flat[c..c + |rows|] == rows
    ensures AllScored(e, rows, scored[c..c + |rows|])
  {
    forall i | 0 <= i < |rows| ensures rows[i] == flat[c + i] {
    }
  }

  /** The moving cursor: where request i's rows sit in the flat list. */
  lemma {:induction false} SliceOfFlat(rows: seq<seq<Entry>>, i: nat)
    requires i < |rows|
    ensures var c := |Flatten(rows[..i])|;
      && c + |rows[i]| == |Flatten(rows[..i+1])| <= |Flatten(rows)|
      && Flatten(rows)[c..c + |rows[i]|] == rows[i]
    decreases |rows|
  {
    assert rows[..i+1][..i] == rows[..i];
    if i == |rows| - 1 {
      assert rows[..i+1] == rows;
    } else {
      var init := rows[..|rows|-1];
      SliceOfFlat(init, i);
      assert init[..i] == rows[..i] && init[..i+1] == rows[..i+1];
    }
  }

  /** Many requests through one chunked pass: each gets exactly its own request's answers. */
  method JudgeEntriesMulti<L, A>(e: Engine<L, A>, batch: seq<Request>) returns (out: seq<Answers<A>>)
    requires e.chunk >= 1
    ensures |out| == |batch|
    ensures forall i :: 0 <= i < |batch| ==> out[i] == Judge(e, batch[i]) && AnswersFor(e, batch[i], out[i])
  {
    hide AnswersFor;
    hide Rows, Rejections, Judge, Flatten;
    if batch == [] {
      return [];
    }
    var rows, rejected, flat := BuildAll(e, batch);
    var scored := ScoreFlat(e, flat);
    out := [];
    var cursor := 0;
    assert rows[..0] == [];
    FlattenNone();
    for i := 0 to |batch|
      invariant |out| == i && cursor == |Flatten(rows[..i])|
      invariant forall k :: 0 <= k < i ==> out[k] == Judge(e, batch[k]) && AnswersFor(e, batch[k], out[k])
    {
      SliceOfFlat(rows, i);
      var slice := scored[cursor..cursor + |rows[i]|];
      SliceScored(e, flat, scored, cursor, rows[i]);
      var merged := MergeAnswers(e, batch[i], rows[i], slice, rejected[i]);
      cursor := cursor + |rows[i]|;
      JudgeIsRight(e, batch[i]);
      out := out + [merged];
    }
  }
}
