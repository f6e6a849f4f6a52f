/** Keyword dispatch as the server's classifiers write it: a chain of
    `text.includes(keyword)` tests on a lower-cased prompt, where the first
    group of keywords that occurs decides the label. `FirstMatch` is the
    reference reading of such a chain as an ordered table of rules. */
module Keywords {
  import opened Common

  /** `keywords.some(k => text.includes(k))` */
  function AnyKeyword(text: string, keywords: seq<string>): (found: bool)
    ensures found <==> exists i :: 0 <= i < |keywords| && Contains(text, keywords[i])
  {
    if keywords == [] then false
    else
      var rest := AnyKeyword(text, keywords[1..]);
      assert rest <==> exists i :: 1 <= i < |keywords| && Contains(text, keywords[i]) by {
        if rest {
          var i :| 0 <= i < |keywords[1..]| && Contains(text, keywords[1..][i]);
          assert keywords[i + 1] == keywords[1..][i];
        }
        if exists i :: 1 <= i < |keywords| && Contains(text, keywords[i]) {
          var i :| 1 <= i < |keywords| && Contains(text, keywords[i]);
          assert keywords[1..][i - 1] == keywords[i];
        }
      }
      Contains(text, keywords[0]) || rest
  }

  /** A group of one keyword matches when that keyword occurs. */
  lemma AnyOfOne(text: string, k: string)
    ensures AnyKeyword(text, [k]) <==> Contains(text, k)
  {
    assert [k][0] == k;
  }

  /** A group of two keywords matches when either occurs. */
  lemma AnyOfTwo(text: string, k1: string, k2: string)
    ensures AnyKeyword(text, [k1, k2]) <==> Contains(text, k1) || Contains(text, k2)
  {
    assert [k1, k2][0] == k1 && [k1, k2][1] == k2;
  }

  /** One line of a classifier: any of its keywords gives its label. */
  datatype Rule = Rule(keywords: seq<string>, tag: string)

  /** The label of the first rule with a keyword in `text`, else
      `fallback`. */
  function FirstMatch(rules: seq<Rule>, text: string, fallback: string): (tag: string)
  {
    if rules == [] then fallback
    else if AnyKeyword(text, rules[0].keywords) then rules[0].tag
    else FirstMatch(rules[1..], text, fallback)
  }

  /** A matching rule decides when no earlier rule matches, whatever the
      later rules say. */
  lemma {:induction false} FirstMatchIs(rules: seq<Rule>, text: string, fallback: string, k: nat)
    requires k < |rules| && AnyKeyword(text, rules[k].keywords)
    requires forall j :: 0 <= j < k ==> !AnyKeyword(text, rules[j].keywords)
    ensures FirstMatch(rules, text, fallback) == rules[k].tag
    decreases k
  {
    if k > 0 {
      assert !AnyKeyword(text, rules[0].keywords);
      assert rules[1..][k - 1] == rules[k];
      forall j | 0 <= j < k - 1
        ensures !AnyKeyword(text, rules[1..][j].keywords)
      {
        assert rules[1..][j] == rules[j + 1];
      }
      FirstMatchIs(rules[1..], text, fallback, k - 1);
    }
  }

  /** Rules that do not match can be dropped from the front of the
      table. */
  lemma {:induction false} FirstMatchSkipped(rules: seq<Rule>, text: string, fallback: string, k: nat)
    requires k <= |rules|
    requires forall j :: 0 <= j < k ==> !AnyKeyword(text, rules[j].keywords)
    ensures FirstMatch(rules, text, fallback) == FirstMatch(rules[k..], text, fallback)
    decreases k
  {
    if k > 0 {
      assert !AnyKeyword(text, rules[0].keywords);
      forall j | 0 <= j < k - 1
        ensures !AnyKeyword(text, rules[1..][j].keywords)
      {
        assert rules[1..][j] == rules[j + 1];
      }
      FirstMatchSkipped(rules[1..], text, fallback, k - 1);
      assert rules[1..][k - 1..] == rules[k..];
    }
  }

  /** With no rule matching, the fallback is the label. */
  lemma {:induction false} FirstMatchFallback(rules: seq<Rule>, text: string, fallback: string)
    requires forall j :: 0 <= j < |rules| ==> !AnyKeyword(text, rules[j].keywords)
    ensures FirstMatch(rules, text, fallback) == fallback
  {
    if rules != [] {
      assert !AnyKeyword(text, rules[0].keywords);
      forall j | 0 <= j < |rules| - 1
        ensures !AnyKeyword(text, rules[1..][j].keywords)
      {
        assert rules[1..][j] == rules[j + 1];
      }
      FirstMatchFallback(rules[1..], text, fallback);
    }
  }

  /** The label is the fallback or the label of a rule that matches. */
  lemma {:induction false} FirstMatchSound(rules: seq<Rule>, text: string, fallback: string)
    ensures var tag := FirstMatch(rules, text, fallback);
            tag == fallback ||
            exists k :: 0 <= k < |rules| && AnyKeyword(text, rules[k].keywords) && tag == rules[k].tag
  {
    if rules != [] && !AnyKeyword(text, rules[0].keywords) {
      FirstMatchSound(rules[1..], text, fallback);
      var tag := FirstMatch(rules, text, fallback);
      if tag != fallback {
        var k :| 0 <= k < |rules[1..]| && AnyKeyword(text, rules[1..][k].keywords) && tag == rules[1..][k].tag;
        assert rules[k + 1] == rules[1..][k];
      }
    }
  }
}
