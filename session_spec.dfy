/**
 * The session state store as a value, and the rules that update it: the login
 * gate, the subject/topic manager, the notes, the study timer and the doubt
 * notebook. Every rejected operation leaves the state as it was.
 */
module SessionSpec {
  import opened Wrappers
  import opened Text
  import opened Progress
  import opened StudyTimer
  import opened Suggestions

  datatype Reason = MissingDetails | InvalidPhone | BlankName | DuplicateName | BlankDoubt

  datatype Outcome = Accepted | Rejected(reason: Reason)

  datatype State = State(
    loggedIn: bool,
    username: string,
    college: string,
    phone: string,
    subjects: seq<string>,
    topics: map<string, TopicList>,
    notes: map<string, string>,
    doubts: seq<string>,
    timer: Timer)

  datatype Step = Step(state: State, outcome: Outcome)

  /** The session defaults installed on first run. */
  function Init(): (st: State)
    ensures Valid(st) && !st.loggedIn
  {
    State(false, "", "", "", [], map[], map[], [], Idle)
  }

  /** The identity the login form accepts. */
  predicate ValidLogin(name: string, college: string, phone: string)
    ensures ValidLogin(name, college, phone) ==> name != "" && college != "" && |phone| == 10
  {
    name != "" && college != "" && phone != "" && IsDigitString(phone) && |phone| == 10
  }

  /** Read character by character: ten characters, each one of the ten digits. */
  lemma ValidLoginByCharacters(name: string, college: string, phone: string)
    ensures ValidLogin(name, college, phone) <==>
      name != "" && college != "" && |phone| == 10 && forall c :: c in phone ==> c in Digits
  {
    DigitsSpelledOut();
  }

  ghost function SubjectSet(subjects: seq<string>): set<string> {
    set s | s in subjects
  }

  /**
   * What the update rules keep true: subjects are unique and non-blank; the topic
   * and note dicts have exactly the subjects as keys; topic names are unique and
   * non-blank within a subject; every saved doubt is non-blank; a logged-in session
   * holds an identity the login form accepts; before login nothing else has changed.
   */
  ghost predicate Valid(st: State) {
    && Distinct(st.subjects)
    && (forall s :: s in st.subjects ==> HasVisible(s))
    && st.topics.Keys == SubjectSet(st.subjects)
    && st.notes.Keys == SubjectSet(st.subjects)
    && (forall s :: s in st.topics ==> ValidTopics(st.topics[s]))
    && (forall i :: 0 <= i < |st.doubts| ==> HasVisible(st.doubts[i]))
    && (st.loggedIn ==> ValidLogin(st.username, st.college, st.phone))
    && (!st.loggedIn ==> st == State(false, "", "", "", [], map[], map[], [], Idle))
  }

  ghost predicate ValidTopics(ts: TopicList) {
    DistinctNames(ts) && forall i :: 0 <= i < |ts| ==> HasVisible(ts[i].name)
  }

  /**
   * The Login button: any empty field is rejected first, then a phone that is not
   * ten digits; otherwise the identity is stored and the session becomes logged in.
   */
  function Login(st: State, name: string, college: string, phone: string): (r: Step)
    requires !st.loggedIn
    ensures r.outcome == Accepted <==> ValidLogin(name, college, phone)
    ensures r.outcome == Rejected(MissingDetails) <==> name == "" || college == "" || phone == ""
    ensures r.outcome == Rejected(InvalidPhone) <==>
      name != "" && college != "" && phone != "" && !(IsDigitString(phone) && |phone| == 10)
    ensures r.outcome != Accepted ==> r.state == st
    ensures r.outcome == Accepted ==>
      r.state == st.(loggedIn := true, username := name, college := college, phone := phone)
  {
    if name == "" || college == "" || phone == "" then Step(st, Rejected(MissingDetails))
    else if !IsDigitString(phone) || |phone| != 10 then Step(st, Rejected(InvalidPhone))
    else Step(st.(loggedIn := true, username := name, college := college, phone := phone), Accepted)
  }

  /**
   * The Add Subject button: a blank name or one already listed is rejected;
   * otherwise the name goes at the end with no topics and empty notes.
   */
  function AddSubject(st: State, name: string): (r: Step)
    requires st.loggedIn
    ensures r.outcome == Accepted <==> !Blank(name) && name !in st.subjects
    ensures r.outcome == Rejected(BlankName) <==> Blank(name)
    ensures r.outcome == Rejected(DuplicateName) <==> !Blank(name) && name in st.subjects
    ensures r.outcome != Accepted ==> r.state == st
    ensures r.outcome == Accepted ==>
      && r.state.subjects == st.subjects + [name]
      && r.state.topics == st.topics[name := []]
      && r.state.notes == st.notes[name := ""]
      && r.state == st.(subjects := r.state.subjects, topics := r.state.topics, notes := r.state.notes)
  {
    if Blank(name) then Step(st, Rejected(BlankName))
    else if name in st.subjects then Step(st, Rejected(DuplicateName))
    else
      Step(st.(subjects := st.subjects + [name],
               topics := st.topics[name := []],
               notes := st.notes[name := ""]), Accepted)
  }

  lemma AddSubjectKeepsValid(st: State, name: string)
    requires Valid(st) && st.loggedIn
    ensures Valid(AddSubject(st, name).state)
  {
    if AddSubject(st, name).outcome == Accepted {
      BlankIffAllSpace(name);
      NewSubjectKeepsValid(st, name);
    }
  }

  /** The state an accepted subject leads to is valid. */
  lemma NewSubjectKeepsValid(st: State, name: string)
    requires Valid(st) && st.loggedIn && HasVisible(name) && name !in st.subjects
    ensures Valid(st.(subjects := st.subjects + [name], topics := st.topics[name := []],
                      notes := st.notes[name := ""]))
  {
    var subjects' := st.subjects + [name];
    DistinctAppend(st.subjects, name);
    assert SubjectSet(subjects') == SubjectSet(st.subjects) + {name};
    assert forall s :: s in subjects' ==> s in st.subjects || s == name;
    assert forall s :: s in st.topics[name := []] ==> s in st.topics || s == name;
  }

  /**
   * The Add Topic button of one subject: a blank name or an existing key is
   * rejected; otherwise the topic is added, not completed, at the end of that
   * subject's dict. Nothing outside that dict changes.
   */
  function AddTopic(st: State, subject: string, topic: string): (r: Step)
    requires st.loggedIn && subject in st.topics
    ensures r.outcome == Accepted <==> !Blank(topic) && !HasTopic(st.topics[subject], topic)
    ensures r.outcome == Rejected(BlankName) <==> Blank(topic)
    ensures r.outcome == Rejected(DuplicateName) <==> !Blank(topic) && HasTopic(st.topics[subject], topic)
    ensures r.outcome != Accepted ==> r.state == st
    ensures r.outcome == Accepted ==>
      && r.state.topics == st.topics[subject := st.topics[subject] + [Topic(topic, false)]]
      && r.state == st.(topics := r.state.topics)
    ensures r.outcome != Rejected(BlankName) ==> HasTopic(r.state.topics[subject], topic)
  {
    var ts := st.topics[subject];
    if Blank(topic) then Step(st, Rejected(BlankName))
    else if HasTopic(ts, topic) then Step(st, Rejected(DuplicateName))
    else
      assert Assign(ts, topic, false) == ts + [Topic(topic, false)];
      Step(st.(topics := st.topics[subject := Assign(ts, topic, false)]), Accepted)
  }

  lemma AddTopicKeepsValid(st: State, subject: string, topic: string)
    requires Valid(st) && st.loggedIn && subject in st.topics
    ensures Valid(AddTopic(st, subject, topic).state)
  {
    if AddTopic(st, subject, topic).outcome == Accepted {
      BlankIffAllSpace(topic);
      NewTopicKeepsValid(st.topics[subject], topic);
      TopicsUpdateKeepsValid(st, subject, st.topics[subject] + [Topic(topic, false)]);
    }
  }

  /** Appending a new, visible, unchecked topic keeps a topic dict valid. */
  lemma NewTopicKeepsValid(ts: TopicList, topic: string)
    requires ValidTopics(ts) && HasVisible(topic) && !HasTopic(ts, topic)
    ensures ValidTopics(ts + [Topic(topic, false)])
  {
    var ts' := ts + [Topic(topic, false)];
    assert forall i :: 0 <= i < |ts| ==> ts[i].name != topic;
    assert forall i :: 0 <= i < |ts'| ==> HasVisible(ts'[i].name);
  }

  /** Replacing one subject's topic dict by another valid one keeps the store valid. */
  lemma TopicsUpdateKeepsValid(st: State, subject: string, ts': TopicList)
    requires Valid(st) && subject in st.topics && ValidTopics(ts')
    ensures Valid(st.(topics := st.topics[subject := ts']))
  {
    var topics' := st.topics[subject := ts'];
    assert forall s :: s in topics' ==> ValidTopics(topics'[s]);
  }

  /** A topic's checkbox: an unconditional overwrite of its completion flag. */
  function SetTopicCompletion(st: State, subject: string, topic: string, value: bool): (r: State)
    requires st.loggedIn && subject in st.topics && HasTopic(st.topics[subject], topic)
    ensures subject in r.topics && |r.topics[subject]| == |st.topics[subject]|
    ensures forall i :: 0 <= i < |r.topics[subject]| && r.topics[subject][i].name == topic ==>
      r.topics[subject][i].done == value
    ensures forall i :: 0 <= i < |r.topics[subject]| && r.topics[subject][i].name != topic ==>
      r.topics[subject][i] == st.topics[subject][i]
    ensures forall i :: 0 <= i < |r.topics[subject]| ==> r.topics[subject][i].name == st.topics[subject][i].name
    ensures r == st.(topics := r.topics) && r.topics.Keys == st.topics.Keys
    ensures forall s :: s in st.topics && s != subject ==> r.topics[s] == st.topics[s]
  {
    st.(topics := st.topics[subject := Assign(st.topics[subject], topic, value)])
  }

  lemma SetTopicCompletionKeepsValid(st: State, subject: string, topic: string, value: bool)
    requires Valid(st) && st.loggedIn && subject in st.topics && HasTopic(st.topics[subject], topic)
    ensures Valid(SetTopicCompletion(st, subject, topic, value))
  {
    var r := SetTopicCompletion(st, subject, topic, value);
    var ts, ts' := st.topics[subject], r.topics[subject];
    assert ValidTopics(ts);
    assert forall i :: 0 <= i < |ts'| ==> ts'[i].name == ts[i].name;
    assert ValidTopics(ts');
    TopicsUpdateKeepsValid(st, subject, ts');
  }

  /** A subject's notes box: an unconditional overwrite of its notes. */
  function SetNotes(st: State, subject: string, text: string): (r: State)
    requires st.loggedIn && subject in st.subjects
    ensures subject in r.notes && r.notes[subject] == text
    ensures r == st.(notes := r.notes) && r.notes.Keys == st.notes.Keys + {subject}
    ensures forall s :: s in st.notes && s != subject ==> r.notes[s] == st.notes[s]
  {
    st.(notes := st.notes[subject := text])
  }

  /** The Save Doubt button: the raw text is appended unless it is blank after stripping. */
  function SaveDoubt(st: State, text: string): (r: Step)
    requires st.loggedIn
    ensures r.outcome == Accepted <==> !Blank(text)
    ensures r.outcome != Accepted ==> r.state == st && r.outcome == Rejected(BlankDoubt)
    ensures r.outcome == Accepted ==> r.state == st.(doubts := st.doubts + [text])
  {
    if Blank(text) then Step(st, Rejected(BlankDoubt))
    else Step(st.(doubts := st.doubts + [text]), Accepted)
  }

  /** The Start button. */
  function StartTimer(st: State, now: int): (r: State)
    requires st.loggedIn
    ensures r == st.(timer := Start(st.timer, now))
  {
    st.(timer := Start(st.timer, now))
  }

  /** The Stop button. */
  function StopTimer(st: State, now: int): (r: State)
    requires st.loggedIn
    ensures r == st.(timer := Stop(st.timer, now))
  {
    st.(timer := Stop(st.timer, now))
  }

  lemma LoginKeepsValid(st: State, name: string, college: string, phone: string)
    requires Valid(st) && !st.loggedIn
    ensures Valid(Login(st, name, college, phone).state)
  {
  }

  lemma SetNotesKeepsValid(st: State, subject: string, text: string)
    requires Valid(st) && st.loggedIn && subject in st.subjects
    ensures Valid(SetNotes(st, subject, text))
  {
  }

  lemma SaveDoubtKeepsValid(st: State, text: string)
    requires Valid(st) && st.loggedIn
    ensures Valid(SaveDoubt(st, text).state)
  {
    BlankIffAllSpace(text);
  }

  lemma TimerKeepsValid(st: State, now: int)
    requires Valid(st) && st.loggedIn
    ensures Valid(StartTimer(st, now)) && Valid(StopTimer(st, now))
  {
  }

  /** The overall progress and weekly-summary read-model of a session. */
  function OverallProgress(st: State): (r: Overall)
    requires Covers(st.subjects, st.topics)
    ensures r.completed <= r.total && r.pending == r.total - r.completed >= 0
    ensures r.percent.Some? <==> r.total > 0
    ensures r.percent.Some? ==> r.percent.value <= 100
    ensures r.percent.Some? ==>
      r.percent.value * r.total <= 100 * r.completed < (r.percent.value + 1) * r.total
  {
    OverallOf(st.subjects, st.topics)
  }

  /** Every listed subject has a topic dict in a valid store. */
  lemma ValidCovers(st: State)
    requires Valid(st)
    ensures Covers(st.subjects, st.topics)
  {
  }

  /**
   * Adding the same subject twice: the second attempt is a duplicate, changes
   * nothing, and the name is listed exactly once.
   */
  lemma AddSubjectTwice(st: State, name: string)
    requires Valid(st) && st.loggedIn && !Blank(name) && name !in st.subjects
    ensures var first := AddSubject(st, name);
      var second := AddSubject(first.state, name);
      && first.outcome == Accepted
      && second.outcome == Rejected(DuplicateName)
      && second.state == first.state
      && multiset(second.state.subjects)[name] == 1
  {
    var s := AddSubject(st, name).state.subjects;
    assert s == st.subjects + [name];
    assert multiset(st.subjects)[name] == 0;
  }

  /** Setting a completion flag to the same value twice is the same as once. */
  lemma SetTopicCompletionIdempotent(st: State, subject: string, topic: string, value: bool)
    requires st.loggedIn && subject in st.topics && HasTopic(st.topics[subject], topic)
    ensures var once := SetTopicCompletion(st, subject, topic, value);
      SetTopicCompletion(once, subject, topic, value) == once
  {
    var once := SetTopicCompletion(st, subject, topic, value);
    var twice := SetTopicCompletion(once, subject, topic, value);
    assert twice.topics[subject] == once.topics[subject];
    assert twice.topics == once.topics;
  }

  /** Writing the same notes twice is the same as once. */
  lemma SetNotesIdempotent(st: State, subject: string, text: string)
    requires st.loggedIn && subject in st.subjects
    ensures SetNotes(SetNotes(st, subject, text), subject, text) == SetNotes(st, subject, text)
  {
  }

  /** Adding a subject leaves the overall counts unchanged: it has no topics yet. */
  lemma AddSubjectKeepsOverall(st: State, name: string)
    requires Valid(st) && st.loggedIn
    ensures OverallProgress(AddSubject(st, name).state).total == OverallProgress(st).total
    ensures OverallProgress(AddSubject(st, name).state).completed == OverallProgress(st).completed
  {
    var r := AddSubject(st, name);
    if r.outcome == Accepted {
      var ss := st.subjects + [name];
      assert ss[..|ss| - 1] == st.subjects;
      assert name !in st.topics;
      SumsUpdate(st.subjects, st.topics[name := []], name, []);
      assert st.topics[name := []][name := []] == st.topics[name := []];
      SumsAgreeOnSubjects(st.subjects, st.topics, st.topics[name := []]);
    }
  }

  /** The sums only look at the listed subjects' dicts. */
  lemma {:induction false} SumsAgreeOnSubjects(subjects: seq<string>, a: map<string, TopicList>, b: map<string, TopicList>)
    requires Covers(subjects, a) && Covers(subjects, b)
    requires forall s :: s in subjects ==> a[s] == b[s]
    ensures SumTotal(subjects, a) == SumTotal(subjects, b)
    ensures SumDone(subjects, a) == SumDone(subjects, b)
  {
    if subjects != [] {
      var front := subjects[..|subjects| - 1];
      assert forall s :: s in front ==> s in subjects;
      SumsAgreeOnSubjects(front, a, b);
    }
  }

  /** An accepted topic adds one to the overall total and nothing to the completed count. */
  lemma AddTopicCounts(st: State, subject: string, topic: string)
    requires Distinct(st.subjects) && Covers(st.subjects, st.topics)
    requires st.loggedIn && subject in st.subjects
    requires AddTopic(st, subject, topic).outcome == Accepted
    ensures OverallProgress(AddTopic(st, subject, topic).state).total == OverallProgress(st).total + 1
    ensures OverallProgress(AddTopic(st, subject, topic).state).completed == OverallProgress(st).completed
  {
    var ts := st.topics[subject];
    var ts' := ts + [Topic(topic, false)];
    CountDoneAppend(ts, Topic(topic, false));
    SumsUpdate(st.subjects, st.topics, subject, ts');
  }

  /**
   * Ticking or unticking a topic leaves the overall total alone and moves the
   * completed count by the change in that topic's flag.
   */
  lemma SetTopicCompletionCounts(st: State, subject: string, topic: string, value: bool, k: nat)
    requires Distinct(st.subjects) && Covers(st.subjects, st.topics)
    requires st.loggedIn && subject in st.subjects
    requires DistinctNames(st.topics[subject])
    requires k < |st.topics[subject]| && st.topics[subject][k].name == topic
    ensures var r := SetTopicCompletion(st, subject, topic, value);
      && OverallProgress(r).total == OverallProgress(st).total
      && OverallProgress(r).completed
         == OverallProgress(st).completed - Flag(st.topics[subject][k].done) + Flag(value)
  {
    var ts := st.topics[subject];
    var ts' := SetTopicCompletion(st, subject, topic, value).topics[subject];
    assert ts' == ts[k := Topic(topic, value)];
    CountDoneUpdate(ts, k, Topic(topic, value));
    SumsUpdate(st.subjects, st.topics, subject, ts');
  }

  /** A session whose only subject has one completed topic is at 100%. */
  lemma OneCompletedTopic(st: State, subject: string)
    requires st.subjects == [subject] && subject in st.topics
    requires |st.topics[subject]| == 1 && st.topics[subject][0].done
    ensures OverallProgress(st) == Overall(1, 1, 0, Some(100))
  {
    var ts := st.topics[subject];
    assert CountDone(ts) == 1 by {
      assert ts[..0] == [];
    }
    SumsOfOne(subject, st.topics);
  }

  /** The first subject added to a logged-in session becomes its only subject, with no topics. */
  lemma AddFirstSubject(st: State, name: string)
    requires Valid(st) && st.loggedIn && st.subjects == [] && HasVisible(name)
    ensures var r := AddSubject(st, name);
      && r.outcome == Accepted && Valid(r.state) && r.state.loggedIn
      && r.state.subjects == [name] && r.state.topics[name] == []
  {
    BlankIffAllSpace(name);
    AddSubjectKeepsValid(st, name);
  }

  /** The first topic added to a subject becomes its only, unchecked, topic. */
  lemma AddFirstTopic(st: State, subject: string, topic: string)
    requires Valid(st) && st.loggedIn && st.subjects == [subject]
    requires subject in st.topics && st.topics[subject] == [] && HasVisible(topic)
    ensures var r := AddTopic(st, subject, topic);
      && r.outcome == Accepted && Valid(r.state) && r.state.loggedIn
      && r.state.subjects == [subject] && r.state.topics[subject] == [Topic(topic, false)]
  {
    BlankIffAllSpace(topic);
    AddTopicKeepsValid(st, subject, topic);
  }

  /** Ticking the one topic of a store's one subject brings it to 100%. */
  lemma TickOnlyTopic(st: State, subject: string, topic: string)
    requires Valid(st) && st.loggedIn && st.subjects == [subject]
    requires subject in st.topics && st.topics[subject] == [Topic(topic, false)]
    ensures HasTopic(st.topics[subject], topic)
    ensures var r := SetTopicCompletion(st, subject, topic, true);
      Valid(r) && OverallProgress(r) == Overall(1, 1, 0, Some(100))
  {
    assert st.topics[subject][0].name == topic;
    var r := SetTopicCompletion(st, subject, topic, true);
    SetTopicCompletionKeepsValid(st, subject, topic, true);
    OneCompletedTopic(r, subject);
  }

  /** The end-to-end scenario: log in, add a subject and a topic, tick it; the tier is exam ready. */
  lemma Scenario()
    ensures
      var s0 := Login(Init(), "Asha", "XYZ College", "9876543210");
      s0.outcome == Accepted && s0.state.loggedIn &&
      var s1 := AddSubject(s0.state, "Math");
      s1.outcome == Accepted && s1.state.loggedIn && "Math" in s1.state.topics &&
      var s2 := AddTopic(s1.state, "Math", "Algebra");
      s2.outcome == Accepted && s2.state.loggedIn && "Math" in s2.state.topics
      && HasTopic(s2.state.topics["Math"], "Algebra") &&
      var s3 := SetTopicCompletion(s2.state, "Math", "Algebra", true);
      Valid(s3) && OverallProgress(s3) == Overall(1, 1, 0, Some(100))
    ensures Suggest(6, 1, 1).tier == Some(ExamReady)
  {
    TierExamples();
    var s0 := Login(Init(), "Asha", "XYZ College", "9876543210");
    assert IsDigitString("9876543210");
    LoginKeepsValid(Init(), "Asha", "XYZ College", "9876543210");
    assert !IsSpace("Math"[0]) && !IsSpace("Algebra"[0]);
    AddFirstSubject(s0.state, "Math");
    var s1 := AddSubject(s0.state, "Math");
    AddFirstTopic(s1.state, "Math", "Algebra");
    var s2 := AddTopic(s1.state, "Math", "Algebra");
    TickOnlyTopic(s2.state, "Math", "Algebra");
  }
}
