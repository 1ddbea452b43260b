/**
 * The doubt notebook's link construction: the doubt text with every space turned
 * into `+`, placed after three fixed search-URL prefixes.
 */
module Doubts {

  const GooglePrefix := "https://www.google.com/search?q="
  const YouTubePrefix := "https://www.youtube.com/results?search_query="
  const GeeksForGeeksPrefix := "https://www.geeksforgeeks.org/?s="

  /** `d.replace(" ", "+")`: no other character is escaped or changed. */
  function Query(d: string): (q: string)
    ensures |q| == |d|
    ensures forall i :: 0 <= i < |d| ==> q[i] == (if d[i] == ' ' then '+' else d[i])
  {
    if d == [] then [] else [if d[0] == ' ' then '+' else d[0]] + Query(d[1..])
  }

  datatype Links = Links(google: string, youtube: string, geeksForGeeks: string)

  /** The three search links of one doubt: each is its fixed prefix with the query after it. */
  function LinksFor(d: string): (r: Links)
    ensures |r.google| == |GooglePrefix| + |d| && r.google[..|GooglePrefix|] == GooglePrefix
    ensures |r.youtube| == |YouTubePrefix| + |d| && r.youtube[..|YouTubePrefix|] == YouTubePrefix
    ensures |r.geeksForGeeks| == |GeeksForGeeksPrefix| + |d|
      && r.geeksForGeeks[..|GeeksForGeeksPrefix|] == GeeksForGeeksPrefix
  {
    var q := Query(d);
    Links(GooglePrefix + q, YouTubePrefix + q, GeeksForGeeksPrefix + q)
  }

  /** Each link is its fixed prefix followed by the same query. */
  lemma LinksShareQuery(d: string)
    ensures var l := LinksFor(d);
      && l.google[..|GooglePrefix|] == GooglePrefix
      && l.youtube[..|YouTubePrefix|] == YouTubePrefix
      && l.geeksForGeeks[..|GeeksForGeeksPrefix|] == GeeksForGeeksPrefix
      && l.google[|GooglePrefix|..] == l.youtube[|YouTubePrefix|..]
         == l.geeksForGeeks[|GeeksForGeeksPrefix|..] == Query(d)
  {
  }

  /** A query never contains a space. */
  lemma QueryHasNoSpace(d: string)
    ensures ' ' !in Query(d)
  {
  }

  /** Replacing again changes nothing. */
  lemma QueryIdempotent(d: string)
    ensures Query(Query(d)) == Query(d)
  {
  }

  /** The query of a concatenation is the concatenation of the queries. */
  lemma QueryConcat(a: string, b: string)
    ensures Query(a + b) == Query(a) + Query(b)
  {
    var q, r := Query(a + b), Query(a) + Query(b);
    assert |q| == |r|;
    forall i | 0 <= i < |q|
      ensures q[i] == r[i]
    {
      if i < |a| {
        assert (a + b)[i] == a[i] && r[i] == Query(a)[i];
      } else {
        assert (a + b)[i] == b[i - |a|] && r[i] == Query(b)[i - |a|];
      }
    }
  }

  /** Text without spaces is its own query. */
  lemma QueryWithoutSpace(d: string)
    requires forall i :: 0 <= i < |d| ==> d[i] != ' '
    ensures Query(d) == d
  {
  }

  /** The worked example: "binary search tree" becomes "binary+search+tree". */
  lemma QueryExample()
    ensures Query("binary search tree") == "binary+search+tree"
  {
    var w1, w2, w3 := "binary", "search", "tree";
    calc {
      Query("binary search tree");
      { assert "binary search tree" == w1 + (" " + (w2 + (" " + w3))); }
      Query(w1 + (" " + (w2 + (" " + w3))));
      { QueryConcat(w1, " " + (w2 + (" " + w3))); }
      Query(w1) + Query(" " + (w2 + (" " + w3)));
      { QueryConcat(" ", w2 + (" " + w3)); }
      Query(w1) + (Query(" ") + Query(w2 + (" " + w3)));
      { QueryConcat(w2, " " + w3); QueryConcat(" ", w3); }
      Query(w1) + (Query(" ") + (Query(w2) + (Query(" ") + Query(w3))));
      { QueryWithoutSpace(w1); QueryWithoutSpace(w2); QueryWithoutSpace(w3); assert Query(" ") == "+"; }
      w1 + ("+" + (w2 + ("+" + w3)));
      "binary+search+tree";
    }
  }

  /**
   * Because `+` is passed through unescaped, a doubt with a space and a doubt with
   * a plus in its place produce the same links.
   */
  lemma QueryNotInjective()
    ensures "a b" != "a+b"
    ensures LinksFor("a b") == LinksFor("a+b")
  {
    assert "a b"[1] != "a+b"[1];
    var q, q' := Query("a b"), Query("a+b");
    assert forall i :: 0 <= i < 3 ==> q[i] == q'[i];
  }
}
