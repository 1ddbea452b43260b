/**
 * The session state store as the running program holds it: one object whose
 * fields the event handlers update in place. Each mutating method leaves the
 * object in the state that the matching rule of SessionSpec gives for the old
 * state; the read-only methods compute the progress counters with loops.
 */
module SessionStore {
  import opened Wrappers
  import opened Text
  import opened Progress
  import opened StudyTimer
  import opened SessionSpec

  class Session {
    var loggedIn: bool
    var username: string
    var college: string
    var phone: string
    var subjects: seq<string>
    var topics: map<string, TopicList>
    var notes: map<string, string>
    var doubts: seq<string>
    var timerRunning: bool
    var startTime: int
    var elapsed: int

    /** The abstract value of the store. */
    ghost function Snapshot(): State
      reads this
    {
      State(loggedIn, username, college, phone, subjects, topics, notes, doubts,
            Timer(timerRunning, startTime, elapsed))
    }

    ghost predicate Valid()
      reads this
    {
      SessionSpec.Valid(Snapshot())
    }

    /** The session defaults. */
    constructor ()
      ensures Snapshot() == Init() && Valid()
    {
      loggedIn, username, college, phone := false, "", "", "";
      subjects, topics, notes, doubts := [], map[], map[], [];
      timerRunning, startTime, elapsed := false, 0, 0;
    }

    /** The Login button. */
    method Login(name: string, college': string, phone': string) returns (o: Outcome)
      requires Valid() && !loggedIn
      modifies this
      ensures Valid()
      ensures o == SessionSpec.Login(old(Snapshot()), name, college', phone').outcome
      ensures Snapshot() == SessionSpec.Login(old(Snapshot()), name, college', phone').state
      ensures o == Accepted <==> ValidLogin(name, college', phone')
    {
      LoginKeepsValid(Snapshot(), name, college', phone');
      if name == "" || college' == "" || phone' == "" {
        o := Rejected(MissingDetails);
      } else if !IsDigitString(phone') || |phone'| != 10 {
        o := Rejected(InvalidPhone);
      } else {
        loggedIn := true;
        username := name;
        college := college';
        phone := phone';
        o := Accepted;
      }
    }

    /** The Add Subject button. */
    method AddSubject(name: string) returns (o: Outcome)
      requires Valid() && loggedIn
      modifies this
      ensures Valid()
      ensures o == SessionSpec.AddSubject(old(Snapshot()), name).outcome
      ensures Snapshot() == SessionSpec.AddSubject(old(Snapshot()), name).state
      ensures o == Accepted <==> !Blank(name) && name !in old(subjects)
    {
      AddSubjectKeepsValid(Snapshot(), name);
      if Strip(name) == "" {
        o := Rejected(BlankName);
      } else if name in subjects {
        o := Rejected(DuplicateName);
      } else {
        subjects := subjects + [name];
        topics := topics[name := []];
        notes := notes[name := ""];
        o := Accepted;
      }
    }

    /** The notes box of one subject. */
    method SetNotes(subject: string, text: string)
      requires Valid() && loggedIn && subject in subjects
      modifies this
      ensures Valid()
      ensures Snapshot() == SessionSpec.SetNotes(old(Snapshot()), subject, text)
      ensures notes[subject] == text
    {
      SetNotesKeepsValid(Snapshot(), subject, text);
      notes := notes[subject := text];
    }

    /** The Add Topic button of one subject. */
    method AddTopic(subject: string, topic: string) returns (o: Outcome)
      requires Valid() && loggedIn && subject in subjects
      modifies this
      ensures Valid()
      ensures o == SessionSpec.AddTopic(old(Snapshot()), subject, topic).outcome
      ensures Snapshot() == SessionSpec.AddTopic(old(Snapshot()), subject, topic).state
      ensures o == Accepted <==> !Blank(topic) && !HasTopic(old(topics[subject]), topic)
    {
      assert subject in topics;
      AddTopicKeepsValid(Snapshot(), subject, topic);
      ghost var r := SessionSpec.AddTopic(Snapshot(), subject, topic);
      var ts := topics[subject];
      if Strip(topic) == "" {
        o := Rejected(BlankName);
      } else if HasTopic(ts, topic) {
        o := Rejected(DuplicateName);
      } else {
        topics := topics[subject := Assign(ts, topic, false)];
        o := Accepted;
      }
      assert Snapshot() == r.state;
    }

    /** One topic's checkbox. */
    method SetTopicCompletion(subject: string, topic: string, value: bool)
      requires Valid() && loggedIn && subject in subjects
      requires subject in topics && HasTopic(topics[subject], topic)
      modifies this
      ensures Valid()
      ensures Snapshot() == SessionSpec.SetTopicCompletion(old(Snapshot()), subject, topic, value)
    {
      SetTopicCompletionKeepsValid(Snapshot(), subject, topic, value);
      topics := topics[subject := Assign(topics[subject], topic, value)];
    }

    /** The Start button; `now` is the clock reading. */
    method StartTimer(now: int)
      requires Valid() && loggedIn
      modifies this
      ensures Valid()
      ensures Snapshot() == SessionSpec.StartTimer(old(Snapshot()), now)
      ensures timerRunning && startTime == now && elapsed == old(elapsed)
    {
      TimerKeepsValid(Snapshot(), now);
      startTime := now;
      timerRunning := true;
    }

    /** The Stop button; `now` is the clock reading. */
    method StopTimer(now: int)
      requires Valid() && loggedIn
      modifies this
      ensures Valid()
      ensures Snapshot() == SessionSpec.StopTimer(old(Snapshot()), now)
      ensures !timerRunning
      ensures elapsed == if old(timerRunning) then old(elapsed) + (now - old(startTime)) else old(elapsed)
    {
      TimerKeepsValid(Snapshot(), now);
      if timerRunning {
        elapsed := elapsed + (now - startTime);
        timerRunning := false;
      }
    }

    /** The Save Doubt button. */
    method SaveDoubt(text: string) returns (o: Outcome)
      requires Valid() && loggedIn
      modifies this
      ensures Valid()
      ensures o == SessionSpec.SaveDoubt(old(Snapshot()), text).outcome
      ensures Snapshot() == SessionSpec.SaveDoubt(old(Snapshot()), text).state
      ensures o == Accepted <==> !Blank(text)
    {
      SaveDoubtKeepsValid(Snapshot(), text);
      if Strip(text) != "" {
        doubts := doubts + [text];
        o := Accepted;
      } else {
        o := Rejected(BlankDoubt);
      }
    }

    /**
     * The per-subject progress block: walks the subject's topics counting the
     * completed ones, and gives the truncated percent when it has any.
     */
    method SubjectProgress(subject: string) returns (completed: nat, total: nat, percent: Option<nat>)
      requires Valid() && subject in subjects
      ensures total == |topics[subject]|
      ensures completed == CountDone(topics[subject]) && completed <= total
      ensures percent == Percent(completed, total)
      ensures percent.Some? <==> total > 0
      ensures percent.Some? ==> percent.value <= 100
    {
      assert subject in topics;
      var ts := topics[subject];
      completed := 0;
      total := |ts|;
      var i := 0;
      while i < |ts|
        invariant 0 <= i <= |ts|
        invariant completed == CountDone(ts[..i])
      {
        assert ts[..i + 1][..i] == ts[..i];
        if ts[i].done {
          completed := completed + 1;
        }
        i := i + 1;
      }
      assert ts[..|ts|] == ts;
      percent := Percent(completed, total);
    }

    /**
     * The overall progress block: sums the topic and completed counts over the
     * subjects in order; `pending` is their difference.
     */
    method OverallProgress() returns (completed: nat, total: nat, pending: int)
      requires Valid()
      ensures total == SumTotal(subjects, topics)
      ensures completed == SumDone(subjects, topics)
      ensures completed <= total && pending == total - completed >= 0
    {
      assert Covers(subjects, topics);
      completed, total := 0, 0;
      var i := 0;
      while i < |subjects|
        invariant 0 <= i <= |subjects|
        invariant Covers(subjects[..i], topics)
        invariant total == SumTotal(subjects[..i], topics)
        invariant completed == SumDone(subjects[..i], topics)
      {
        SumsStep(subjects, topics, i);
        var s := subjects[i];
        total := total + |topics[s]|;
        completed := completed + CountDone(topics[s]);
        i := i + 1;
      }
      assert subjects[..|subjects|] == subjects;
      pending := total - completed;
    }

    /** The timer display: the bank plus the live interval while running. */
    method ElapsedNow(now: int) returns (e: int)
      ensures e == Read(Timer(timerRunning, startTime, elapsed), now)
      ensures !timerRunning ==> e == elapsed
      ensures timerRunning && startTime <= now ==> e >= elapsed
    {
      e := elapsed;
      if timerRunning {
        e := e + (now - startTime);
      }
    }
  }
}
