/**
 * The mock result generator: three fixed result templates around a topic
 * taken from the first three space-separated segments of the query.
 */
module MockSearch {
  import opened Strings

  datatype ResultItem = ResultItem(title: string, desc: string)

  /** A result template: the text that follows the topic in the title, and the fixed description. */
  datatype Template = Template(suffix: string, desc: string)

  const CodeTemplates: seq<Template> := [
    Template(" \U{2014} Example snippet", "Short code example and explanation."),
    Template(" \U{2014} Repo & Walkthrough", "A small repo or gist showing how to use it."),
    Template(" \U{2014} Cheatsheet", "Key functions, patterns and gotchas.")
  ]

  const StudyTemplates: seq<Template> := [
    Template(" \U{2014} Study Guide", "Summary, topics to cover, and exercises."),
    Template(" \U{2014} Video Lecture", "Short curated lecture or tutorial link."),
    Template(" \U{2014} Practice Problems", "Problems with increasing difficulty.")
  ]

  /**
   * `q.split(' ').slice(0, 3).join(' ')`: the query itself when it has at most
   * three segments, otherwise the query cut just before its third space.
   */
  function Topic(q: string): (topic: string)
    ensures HasPrefix(q, topic)
  {
    FirstSegments(q);
    Join(Take(Split(q, ' '), 3), ' ')
  }

  function Instantiate(t: Template, topic: string): ResultItem
  {
    ResultItem(topic + t.suffix, t.desc)
  }

  /** `fakeSearchResults(mode, q)`: nothing for the empty query, else three items from the mode's templates. */
  function FakeSearchResults(mode: string, q: string): (items: seq<ResultItem>)
    ensures |items| == if q == [] then 0 else 3
    ensures forall i :: 0 <= i < |items| ==> HasPrefix(items[i].title, Topic(q))
  {
    if q == [] then []
    else
      var topic := Topic(q);
      var templates := if mode == "code" then CodeTemplates else StudyTemplates;
      [Instantiate(templates[0], topic), Instantiate(templates[1], topic), Instantiate(templates[2], topic)]
  }

  /** The items are exactly the given templates, in order, around `topic`. */
  predicate FollowsTemplates(items: seq<ResultItem>, templates: seq<Template>, topic: string)
  {
    |items| == |templates|
    && forall i :: 0 <= i < |items| ==>
         items[i].title == topic + templates[i].suffix && items[i].desc == templates[i].desc
  }

  /**
   * For a non-empty query the code templates are used exactly when the mode
   * is `"code"`, and the study templates for every other mode.
   */
  lemma ResultsFollowMode(mode: string, q: string)
    requires q != []
    ensures FollowsTemplates(FakeSearchResults(mode, q), CodeTemplates, Topic(q)) <==> mode == "code"
    ensures FollowsTemplates(FakeSearchResults(mode, q), StudyTemplates, Topic(q)) <==> mode != "code"
  {
    var items, topic := FakeSearchResults(mode, q), Topic(q);
    if mode == "code" {
      assert items[0].desc != StudyTemplates[0].desc;
    } else {
      assert items[0].desc != CodeTemplates[0].desc;
    }
  }

  /** The first three space-separated segments, joined again, are a prefix of the query. */
  lemma FirstSegments(q: string)
    ensures var parts := Split(q, ' '); var first := Join(Take(parts, 3), ' ');
      (|parts| <= 3 ==> first == q)
      && (|parts| > 3 ==> first + " " + Join(parts[3..], ' ') == q)
      && HasPrefix(q, first)
  {
    JoinSplit(q, ' ');
    if |Split(q, ' ')| <= 3 {
      FewSegments(q);
    } else {
      ManySegments(q);
    }
  }

  lemma FewSegments(q: string)
    requires |Split(q, ' ')| <= 3 && Join(Split(q, ' '), ' ') == q
    ensures Join(Take(Split(q, ' '), 3), ' ') == q && HasPrefix(q, q)
  {
    assert Take(Split(q, ' '), 3) == Split(q, ' ');
    assert q[..|q|] == q;
  }

  lemma ManySegments(q: string)
    requires |Split(q, ' ')| > 3 && Join(Split(q, ' '), ' ') == q
    ensures var parts := Split(q, ' '); var first := Join(Take(parts, 3), ' ');
      first + " " + Join(parts[3..], ' ') == q && HasPrefix(q, first)
  {
    var parts := Split(q, ' ');
    var first := Join(parts[..3], ' ');
    assert parts == parts[..3] + parts[3..];
    JoinAppend(parts[..3], parts[3..], ' ');
    assert q == first + (" " + Join(parts[3..], ' '));
    assert q[..|first|] == first;
  }

  /**
   * The topic is the query itself when it has at most three segments;
   * otherwise it is the query cut just before its third space.
   */
  lemma TopicOfQuery(q: string)
    ensures |Split(q, ' ')| <= 3 ==> Topic(q) == q
    ensures |Split(q, ' ')| > 3 ==> Topic(q) + " " + Join(Split(q, ' ')[3..], ' ') == q
  {
    FirstSegments(q);
  }

  /** The topic keeps at most two of the query's spaces: it has at most three segments. */
  lemma {:induction false} TopicHasAtMostTwoSpaces(q: string)
    ensures Count(Topic(q), ' ') <= 2
  {
    var parts := Take(Split(q, ' '), 3);
    JoinCount(parts, ' ');
  }

  /** The caller searches for the trimmed query: whitespace alone gives no results, anything else three. */
  lemma SearchOfTrimmedQuery(mode: string, raw: string)
    ensures AllWhitespace(raw) <==> FakeSearchResults(mode, Trim(raw)) == []
    ensures !AllWhitespace(raw) ==> |FakeSearchResults(mode, Trim(raw))| == 3
  {
    TrimEmptyIff(raw);
  }
}
