/**
 * A subject's topics (the source's dict topic -> completed, kept in insertion
 * order) and the progress read-models computed from them: per-subject counts
 * and percent, and the overall sums across subjects.
 */
module Progress {
  import opened Wrappers

  datatype Topic = Topic(name: string, done: bool)

  /** One subject's topic dict, in insertion order. */
  type TopicList = seq<Topic>

  /**
   * `name in topics[subject]`: key membership in the insertion-ordered dict. An
   * empty dict has no key; the most recently inserted key is present.
   */
  predicate HasTopic(ts: TopicList, name: string)
    ensures ts == [] ==> !HasTopic(ts, name)
    ensures ts != [] && ts[|ts| - 1].name == name ==> HasTopic(ts, name)
  {
    exists i :: 0 <= i < |ts| && ts[i].name == name
  }

  /** Dict keys are unique. */
  ghost predicate DistinctNames(ts: TopicList) {
    forall i, j :: 0 <= i < j < |ts| ==> ts[i].name != ts[j].name
  }

  /**
   * Dict item assignment `topics[subject][name] = value`: an existing key keeps
   * its position and takes the new flag; a new key is added at the end.
   */
  function Assign(ts: TopicList, name: string, value: bool): (r: TopicList)
    ensures HasTopic(ts, name) ==> |r| == |ts|
    ensures !HasTopic(ts, name) ==> |r| == |ts| + 1 && r[|ts|] == Topic(name, value)
    ensures forall i :: 0 <= i < |ts| ==> r[i].name == ts[i].name
    ensures forall i :: 0 <= i < |ts| && ts[i].name != name ==> r[i] == ts[i]
    ensures forall i :: 0 <= i < |r| && r[i].name == name ==> r[i].done == value
    ensures HasTopic(r, name)
    ensures DistinctNames(ts) ==> DistinctNames(r)
  {
    if HasTopic(ts, name) then
      seq(|ts|, i requires 0 <= i < |ts| => if ts[i].name == name then Topic(name, value) else ts[i])
    else
      ts + [Topic(name, value)]
  }

  function Flag(done: bool): nat {
    if done then 1 else 0
  }

  /** `sum(1 for v in topics[subject].values() if v)`: the number of completed topics. */
  function CountDone(ts: TopicList): (r: nat)
    ensures r <= |ts|
  {
    if ts == [] then 0 else CountDone(ts[..|ts| - 1]) + Flag(ts[|ts| - 1].done)
  }

  /** Every topic is completed exactly when the completed count is the total. */
  lemma {:induction false} CountDoneAll(ts: TopicList)
    ensures CountDone(ts) == |ts| <==> forall i :: 0 <= i < |ts| ==> ts[i].done
  {
    if ts != [] {
      var front := ts[..|ts| - 1];
      CountDoneAll(front);
      assert forall i :: 0 <= i < |front| ==> front[i] == ts[i];
    }
  }

  /** No topic is completed exactly when the completed count is zero. */
  lemma {:induction false} CountDoneNone(ts: TopicList)
    ensures CountDone(ts) == 0 <==> forall i :: 0 <= i < |ts| ==> !ts[i].done
  {
    if ts != [] {
      var front := ts[..|ts| - 1];
      CountDoneNone(front);
      assert forall i :: 0 <= i < |front| ==> front[i] == ts[i];
    }
  }

  /** Appending one topic adds its flag to the count. */
  lemma CountDoneAppend(ts: TopicList, t: Topic)
    ensures CountDone(ts + [t]) == CountDone(ts) + Flag(t.done)
  {
    assert (ts + [t])[..|ts|] == ts;
  }

  /** Overwriting one entry changes the count by the difference of the two flags. */
  lemma {:induction false} CountDoneUpdate(ts: TopicList, k: nat, t: Topic)
    requires k < |ts|
    ensures CountDone(ts[k := t]) == CountDone(ts) - Flag(ts[k].done) + Flag(t.done)
  {
    var n := |ts| - 1;
    if k == n {
      assert ts[k := t][..n] == ts[..n];
    } else {
      assert ts[k := t][..n] == ts[..n][k := t];
      CountDoneUpdate(ts[..n], k, t);
    }
  }

  /**
   * The source's per-subject and overall percent: `int((completed / total) * 100)`,
   * here the exact truncation of 100 * completed / total; none when there are no topics.
   */
  function Percent(completed: nat, total: nat): (r: Option<nat>)
    ensures r.Some? <==> total > 0
    ensures r.Some? ==> r.value * total <= 100 * completed < (r.value + 1) * total
    ensures r.Some? && completed <= total ==> r.value <= 100
  {
    if total == 0 then None
    else
      var p := 100 * completed / total;
      PercentBounds(completed, total, p);
      Some(p)
  }

  lemma PercentBounds(c: nat, t: nat, p: nat)
    requires t > 0 && p == 100 * c / t
    ensures p * t <= 100 * c < (p + 1) * t
    ensures c <= t ==> p <= 100
  {
    var m := 100 * c;
    assert m == p * t + m % t;
  }

  /** Every subject in `subjects` has a topic dict. */
  ghost predicate Covers(subjects: seq<string>, topics: map<string, TopicList>) {
    forall s :: s in subjects ==> s in topics
  }

  /** `overall_total`: the number of topics summed over the subjects, in order. */
  function SumTotal(subjects: seq<string>, topics: map<string, TopicList>): (r: nat)
    requires Covers(subjects, topics)
    ensures forall k :: 0 <= k < |subjects| ==> |topics[subjects[k]]| <= r
    ensures subjects == [] ==> r == 0
  {
    if subjects == [] then 0
    else SumTotal(subjects[..|subjects| - 1], topics) + |topics[subjects[|subjects| - 1]]|
  }

  /** `overall_completed`: the completed topics summed over the subjects, in order. */
  function SumDone(subjects: seq<string>, topics: map<string, TopicList>): (r: nat)
    requires Covers(subjects, topics)
    ensures r <= SumTotal(subjects, topics)
  {
    if subjects == [] then 0
    else SumDone(subjects[..|subjects| - 1], topics) + CountDone(topics[subjects[|subjects| - 1]])
  }

  /** One more subject adds its own counts to both sums. */
  lemma SumsStep(subjects: seq<string>, topics: map<string, TopicList>, i: nat)
    requires Covers(subjects, topics) && i < |subjects|
    ensures Covers(subjects[..i], topics) && Covers(subjects[..i + 1], topics)
      && SumTotal(subjects[..i + 1], topics) == SumTotal(subjects[..i], topics) + |topics[subjects[i]]|
      && SumDone(subjects[..i + 1], topics) == SumDone(subjects[..i], topics) + CountDone(topics[subjects[i]])
  {
    assert forall s :: s in subjects[..i + 1] ==> s in subjects;
    assert subjects[..i + 1][..i] == subjects[..i];
  }

  /** With a single subject the sums are that subject's own counts. */
  lemma SumsOfOne(s: string, topics: map<string, TopicList>)
    requires s in topics
    ensures SumTotal([s], topics) == |topics[s]|
    ensures SumDone([s], topics) == CountDone(topics[s])
  {
    assert [s][..0] == [];
  }

  ghost predicate Distinct<T>(s: seq<T>) {
    forall i, j :: 0 <= i < j < |s| ==> s[i] != s[j]
  }

  /** Appending an element not yet present keeps the elements distinct. */
  lemma DistinctAppend<T>(s: seq<T>, x: T)
    requires Distinct(s) && x !in s
    ensures Distinct(s + [x])
  {
  }

  /**
   * Replacing the topic dict of one subject (listed once) moves both sums by the
   * change in that subject's own counts, and leaves every other subject's share alone.
   */
  lemma {:induction false} SumsUpdate(subjects: seq<string>, topics: map<string, TopicList>, s: string, ts: TopicList)
    requires Covers(subjects, topics) && Distinct(subjects) && s in topics
    ensures Covers(subjects, topics[s := ts])
    ensures s in subjects ==>
      SumTotal(subjects, topics[s := ts]) == SumTotal(subjects, topics) - |topics[s]| + |ts|
      && SumDone(subjects, topics[s := ts]) == SumDone(subjects, topics) - CountDone(topics[s]) + CountDone(ts)
    ensures s !in subjects ==>
      SumTotal(subjects, topics[s := ts]) == SumTotal(subjects, topics)
      && SumDone(subjects, topics[s := ts]) == SumDone(subjects, topics)
  {
    if subjects != [] {
      var front := subjects[..|subjects| - 1];
      var last := subjects[|subjects| - 1];
      assert forall x :: x in front ==> x in subjects;
      assert Distinct(front);
      if s == last {
        assert s !in front;
      } else {
        assert s in subjects ==> s in front;
      }
      SumsUpdate(front, topics, s, ts);
    }
  }

  /** The whole overall read-model: sums, pending count and percent. */
  datatype Overall = Overall(completed: nat, total: nat, pending: int, percent: Option<nat>)

  /** Lines computing `overall_total`, `overall_completed`, `overall_percent` and `pending`. */
  function OverallOf(subjects: seq<string>, topics: map<string, TopicList>): (r: Overall)
    requires Covers(subjects, topics)
    ensures r.completed <= r.total
    ensures r.pending >= 0 && r.completed + r.pending == r.total
    ensures r.percent.Some? <==> r.total > 0
    ensures r.percent.Some? ==> r.percent.value <= 100
    ensures r.percent.Some? ==>
      r.percent.value * r.total <= 100 * r.completed < (r.percent.value + 1) * r.total
  {
    var total := SumTotal(subjects, topics);
    var completed := SumDone(subjects, topics);
    Overall(completed, total, total - completed, Percent(completed, total))
  }
}
