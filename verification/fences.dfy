/** The two global regular expressions the extractors run with `exec` in a
    loop, modelled as a left-to-right search:

      LangAndPath  ```(\w+)(?::([^\n]+))?\n([\s\S]*?)```   (enhanced-ai-api.ts)
      OptionalLang ```(\w+)?\n([\s\S]*?)```                (chat-routes.ts)

    `MatchAt(s, p)` is what the backtracking matcher finds when it is tried at
    position `p`; `Exec(s, from)` is one call of `exec` with `lastIndex ==
    from`: the match at the least position at or after `from`. Since a failed
    attempt retries one position later, a closing fence can open the next
    match. */
module Fences {
  import opened Common

  datatype Pattern = LangAndPath | OptionalLang

  /** One match: the text `s[start..end]`, the language group (possibly
      empty for OptionalLang), the path group when it took part, and the body. */
  datatype Block = Block(start: nat, end: nat, lang: string, path: Option<string>, body: string)

  /** `\w` without the `u` flag */
  predicate IsWordChar(c: char) {
    ('a' <= c <= 'z') || ('A' <= c <= 'Z') || ('0' <= c <= '9') || c == '_'
  }

  /** Three backticks start at `j`. */
  predicate FenceAt(s: string, j: int) {
    0 <= j && j + 3 <= |s| && s[j] == '`' && s[j + 1] == '`' && s[j + 2] == '`'
  }

  /** Length of the longest run of word characters starting at `i`. */
  function WordRun(s: string, i: nat): (n: nat)
    requires i <= |s|
    ensures i + n <= |s|
    decreases |s| - i
  {
    if i < |s| && IsWordChar(s[i]) then 1 + WordRun(s, i + 1) else 0
  }

  /** The run is maximal: word characters up to its end, and none just
      after it. */
  lemma {:induction false} WordRunSpec(s: string, i: nat)
    requires i <= |s|
    ensures var n := WordRun(s, i);
      (forall k :: i <= k < i + n ==> IsWordChar(s[k])) && (i + n < |s| ==> !IsWordChar(s[i + n]))
    decreases |s| - i
  {
    if i < |s| && IsWordChar(s[i]) {
      WordRunSpec(s, i + 1);
    }
  }

  /** Length of the longest run of characters other than '\n' starting at `i`. */
  function LineRun(s: string, i: nat): (n: nat)
    requires i <= |s|
    ensures i + n <= |s|
    decreases |s| - i
  {
    if i < |s| && s[i] != '\n' then 1 + LineRun(s, i + 1) else 0
  }

  /** The run is maximal: no newline up to its end, and a newline just after
      it unless the text ends there. */
  lemma {:induction false} LineRunSpec(s: string, i: nat)
    requires i <= |s|
    ensures var n := LineRun(s, i);
      (forall k :: i <= k < i + n ==> s[k] != '\n') && (i + n < |s| ==> s[i + n] == '\n')
    decreases |s| - i
  {
    if i < |s| && s[i] != '\n' {
      LineRunSpec(s, i + 1);
    }
  }

  /** The first fence at or after `i`: where the lazy `[\s\S]*?` stops. */
  function FindFence(s: string, i: nat): (r: Option<nat>)
    requires i <= |s|
    ensures r.Some? ==> i <= r.value && r.value + 3 <= |s|
    decreases |s| - i
  {
    if i + 3 > |s| then None
    else if FenceAt(s, i) then Some(i)
    else FindFence(s, i + 1)
  }

  /** The fence found is the first one at or after `i`. */
  lemma {:induction false} FindFenceSpec(s: string, i: nat)
    requires i <= |s|
    ensures var r := FindFence(s, i);
      && (r.Some? ==> FenceAt(s, r.value) && forall j :: i <= j < r.value ==> !FenceAt(s, j))
      && (r.None? ==> forall j :: i <= j ==> !FenceAt(s, j))
    decreases |s| - i
  {
    if i + 3 <= |s| && !FenceAt(s, i) {
      FindFenceSpec(s, i + 1);
    }
  }

  /** Where the header after the language group ends: the path group (when
      the pattern has one and it matches) and the index just after the '\n'. */
  function Header(pat: Pattern, s: string, q: nat): (h: Option<(Option<string>, nat)>)
    requires q <= |s|
    ensures h.Some? ==> q < h.value.1 <= |s|
  {
    if pat == LangAndPath && q < |s| && s[q] == ':' then
      var e := q + 1 + LineRun(s, q + 1);
      if e > q + 1 && e < |s| then Some((Some(s[q + 1..e]), e + 1)) else None
    else if q < |s| && s[q] == '\n' then Some((None, q + 1))
    else None
  }

  /** The match the regular expression finds when tried at `p`, if any. */
  function MatchAt(pat: Pattern, s: string, p: nat): (r: Option<Block>)
    requires p <= |s|
    ensures r.Some? ==> r.value.start == p && p + 4 <= r.value.end <= |s|
  {
    if !FenceAt(s, p) then None
    else
      var q := p + 3 + WordRun(s, p + 3);
      var lang := s[p + 3..q];
      if pat == LangAndPath && lang == [] then None
      else
        var h := Header(pat, s, q);
        if h.None? then None
        else
          var bodyStart := h.value.1;
          var close := FindFence(s, bodyStart);
          if close.None? then None
          else Some(Block(p, close.value + 3, lang, h.value.0, s[bodyStart..close.value]))
  }

  /** `regex.exec(s)` with `regex.lastIndex == from`: the leftmost match
      starting at or after `from`. */
  function Exec(pat: Pattern, s: string, from: nat): (r: Option<Block>)
    requires from <= |s|
    ensures r.Some? ==> from <= r.value.start < r.value.end <= |s|
    decreases |s| - from
  {
    if MatchAt(pat, s, from).Some? then MatchAt(pat, s, from)
    else if from == |s| then None
    else Exec(pat, s, from + 1)
  }

  /** `Exec` finds a real match, and no match starts between `from` and it
      (or anywhere from `from` on when it finds none). */
  lemma {:induction false} ExecLeftmost(pat: Pattern, s: string, from: nat)
    requires from <= |s|
    ensures var r := Exec(pat, s, from);
      && (r.Some? ==> MatchAt(pat, s, r.value.start) == r)
      && (forall q :: from <= q <= |s| && (r.None? || q < r.value.start) ==> MatchAt(pat, s, q).None?)
    decreases |s| - from
  {
    if MatchAt(pat, s, from).None? && from < |s| {
      ExecLeftmost(pat, s, from + 1);
    }
  }

  /** What follows the language group up to the body: ":" and the path
      when there is one, then the newline. */
  function HeaderText(path: Option<string>): string {
    (if path.Some? then ":" + path.value else "") + "\n"
  }

  /** The text of a fenced block as the pattern describes it: three
      backticks, the language, the optional ":path", a newline, the body and
      the closing backticks. */
  function BlockText(lang: string, path: Option<string>, body: string): string {
    "```" + lang + HeaderText(path) + body + "```"
  }

  /** The groups the pattern allows: a language of word characters (at least
      one for LangAndPath), and a path (LangAndPath only) that is a
      non-empty line. */
  predicate GroupsFit(pat: Pattern, lang: string, path: Option<string>) {
    && (forall k :: 0 <= k < |lang| ==> IsWordChar(lang[k]))
    && (pat == LangAndPath ==> lang != [])
    && (pat == OptionalLang ==> path.None?)
    && (path.Some? ==> path.value != [] && '\n' !in path.value)
  }

  /** The lazy body stops at the closing fence written after it: no three
      backticks start inside `body + "```"` before that fence (a body ending
      in a backtick would close early). */
  predicate StopsAtEnd(body: string) {
    forall j :: 0 <= j < |body| ==> !FenceAt(body + "```", j)
  }

  /** Soundness: a match is the text of a block whose groups fit the
      pattern and whose body the lazy quantifier ends at the closing fence. */
  lemma MatchAtSound(pat: Pattern, s: string, p: nat)
    requires p <= |s| && MatchAt(pat, s, p).Some?
    ensures var b := MatchAt(pat, s, p).value;
      && s[p..b.end] == BlockText(b.lang, b.path, b.body)
      && GroupsFit(pat, b.lang, b.path)
      && StopsAtEnd(b.body)
  {
    var b := MatchAt(pat, s, p).value;
    MatchAtPieces(pat, s, p);
    PiecesText(s, p, b.lang, b.path, b.body);
  }

  lemma MatchAtPieces(pat: Pattern, s: string, p: nat)
    requires p <= |s| && MatchAt(pat, s, p).Some?
    ensures var b := MatchAt(pat, s, p).value;
      var q := p + 3 + |b.lang|; var bs := q + |HeaderText(b.path)|;
      && bs + |b.body| + 3 == b.end
      && s[p..p + 3] == "```" && s[p + 3..q] == b.lang && s[q..bs] == HeaderText(b.path)
      && s[bs..b.end] == b.body + "```"
      && GroupsFit(pat, b.lang, b.path)
      && StopsAtEnd(b.body)
  {
    var b := MatchAt(pat, s, p).value;
    MatchAtUnfold(pat, s, p);
    PartsPieces(pat, s, p, b.lang, b.path, b.end - 3 - |b.body|, b.body);
  }

  lemma MatchAtUnfold(pat: Pattern, s: string, p: nat)
    requires p <= |s| && MatchAt(pat, s, p).Some?
    ensures var b := MatchAt(pat, s, p).value;
      var q := p + 3 + |b.lang|; var bodyStart := b.end - 3 - |b.body|;
      && q <= |s| && FenceAt(s, p) && WordRun(s, p + 3) == |b.lang| && s[p + 3..q] == b.lang
      && (pat == LangAndPath ==> b.lang != [])
      && Header(pat, s, q) == Some((b.path, bodyStart))
      && bodyStart + |b.body| <= |s| && FindFence(s, bodyStart) == Some(bodyStart + |b.body|)
      && s[bodyStart..bodyStart + |b.body|] == b.body
  {
  }

  lemma PartsPieces(pat: Pattern, s: string, p: nat, lang: string, path: Option<string>, bodyStart: nat, body: string)
    requires p + 3 + |lang| <= |s| && FenceAt(s, p)
    requires WordRun(s, p + 3) == |lang| && s[p + 3..p + 3 + |lang|] == lang
    requires pat == LangAndPath ==> lang != []
    requires Header(pat, s, p + 3 + |lang|) == Some((path, bodyStart))
    requires bodyStart + |body| <= |s| && FindFence(s, bodyStart) == Some(bodyStart + |body|)
    requires s[bodyStart..bodyStart + |body|] == body
    ensures var q := p + 3 + |lang|;
      && bodyStart == q + |HeaderText(path)|
      && s[p..p + 3] == "```" && s[q..bodyStart] == HeaderText(path)
      && s[bodyStart..bodyStart + |body| + 3] == body + "```"
      && GroupsFit(pat, lang, path)
      && StopsAtEnd(body)
  {
    var q := p + 3 + |lang|;
    LangWord(s, p + 3, lang);
    HeaderSound(pat, s, q);
    BodyClosed(s, bodyStart, body);
  }

  lemma LangWord(s: string, i: nat, lang: string)
    requires i + |lang| <= |s| && WordRun(s, i) == |lang| && s[i..i + |lang|] == lang
    ensures forall k :: 0 <= k < |lang| ==> IsWordChar(lang[k])
  {
    WordRunSpec(s, i);
    forall k | 0 <= k < |lang| ensures IsWordChar(lang[k]) {
      assert lang[k] == s[i + k];
    }
  }

  lemma BodyClosed(s: string, bodyStart: nat, body: string)
    requires bodyStart + |body| <= |s| && FindFence(s, bodyStart) == Some(bodyStart + |body|)
    requires s[bodyStart..bodyStart + |body|] == body
    ensures bodyStart + |body| + 3 <= |s| && s[bodyStart..bodyStart + |body| + 3] == body + "```"
    ensures StopsAtEnd(body)
  {
    var close := bodyStart + |body|;
    FindFenceSpec(s, bodyStart);
    assert s[close..close + 3] == "```";
    assert s[bodyStart..close + 3] == s[bodyStart..close] + s[close..close + 3];
    BodyStops(s, bodyStart, body);
  }

  lemma BodyStops(s: string, bodyStart: nat, body: string)
    requires bodyStart + |body| + 3 <= |s| && s[bodyStart..bodyStart + |body| + 3] == body + "```"
    requires forall j :: bodyStart <= j < bodyStart + |body| ==> !FenceAt(s, j)
    ensures StopsAtEnd(body)
  {
    var t := body + "```";
    forall j | 0 <= j < |body| ensures !FenceAt(t, j) {
      assert !FenceAt(s, bodyStart + j);
      assert t[j] == s[bodyStart + j] && t[j + 1] == s[bodyStart + j + 1] && t[j + 2] == s[bodyStart + j + 2];
    }
  }

  lemma PiecesText(s: string, p: nat, lang: string, path: Option<string>, body: string)
    requires var q := p + 3 + |lang|; var b := q + |HeaderText(path)|;
      && b + |body| + 3 <= |s|
      && s[p..p + 3] == "```" && s[p + 3..q] == lang && s[q..b] == HeaderText(path)
      && s[b..b + |body| + 3] == body + "```"
    ensures s[p..p + |BlockText(lang, path, body)|] == BlockText(lang, path, body)
  {
    var q := p + 3 + |lang|;
    var b := q + |HeaderText(path)|;
    var e := b + |body| + 3;
    assert s[p..q] == s[p..p + 3] + s[p + 3..q];
    assert s[p..b] == s[p..q] + s[q..b];
    assert s[p..e] == s[p..b] + s[b..e];
    assert BlockText(lang, path, body) == "```" + lang + HeaderText(path) + (body + "```");
  }

  lemma HeaderSound(pat: Pattern, s: string, q: nat)
    requires q <= |s| && Header(pat, s, q).Some?
    ensures s[q..Header(pat, s, q).value.1] == HeaderText(Header(pat, s, q).value.0)
    ensures var path := Header(pat, s, q).value.0;
      (pat == OptionalLang ==> path.None?) && (path.Some? ==> path.value != [] && '\n' !in path.value)
  {
    var h := Header(pat, s, q).value;
    if h.0.Some? {
      var e := h.1 - 1;
      assert pat == LangAndPath && s[q] == ':' && e == q + 1 + LineRun(s, q + 1) && e < |s|;
      LineRunSpec(s, q + 1);
      assert h.0.value == s[q + 1..e] && s[e] == '\n';
      assert s[q..h.1] == s[q..q + 1] + s[q + 1..e] + s[e..h.1];
    } else {
      assert s[q..h.1] == ['\n'];
    }
  }

  /** Round trip: writing a block whose groups fit the pattern and whose body
      stops at its closing fence, and matching at the place it was written,
      gives back its language, path and body. */
  lemma MatchBlockText(pat: Pattern, pre: string, lang: string, path: Option<string>, body: string, post: string)
    requires GroupsFit(pat, lang, path) && StopsAtEnd(body)
    ensures var t := BlockText(lang, path, body);
      MatchAt(pat, pre + t + post, |pre|) == Some(Block(|pre|, |pre| + |t|, lang, path, body))
  {
    var t := BlockText(lang, path, body);
    var s := pre + t + post;
    assert s[|pre|..|pre| + |t|] == t;
    MatchBlockAt(pat, s, |pre|, lang, path, body);
  }

  lemma MatchBlockAt(pat: Pattern, s: string, p: nat, lang: string, path: Option<string>, body: string)
    requires GroupsFit(pat, lang, path) && StopsAtEnd(body)
    requires var t := BlockText(lang, path, body); p + |t| <= |s| && s[p..p + |t|] == t
    ensures MatchAt(pat, s, p) == Some(Block(p, p + |BlockText(lang, path, body)|, lang, path, body))
  {
    BlockSlices(s, p, lang, path, body);
    MatchPieces(pat, s, p, lang, path, body);
  }

  /** The pieces of a block written at `p`, as `MatchPieces` takes them. */
  lemma BlockSlices(s: string, p: nat, lang: string, path: Option<string>, body: string)
    requires var t := BlockText(lang, path, body); p + |t| <= |s| && s[p..p + |t|] == t
    ensures var q := p + 3 + |lang|; var b := q + |HeaderText(path)|;
      && p + |BlockText(lang, path, body)| == b + |body| + 3
      && s[p..p + 3] == "```" && s[p + 3..q] == lang && s[q..b] == HeaderText(path)
      && s[b..b + |body| + 3] == body + "```"
  {
    var t := BlockText(lang, path, body);
    var h := HeaderText(path);
    BlockTextPieces(lang, path, body);
    SubSlice(s, p, t, 0, 3);
    SubSlice(s, p, t, 3, 3 + |lang|);
    SubSlice(s, p, t, 3 + |lang|, 3 + |lang| + |h|);
    SubSlice(s, p, t, 3 + |lang| + |h|, |t|);
  }

  lemma MatchPieces(pat: Pattern, s: string, p: nat, lang: string, path: Option<string>, body: string)
    requires GroupsFit(pat, lang, path) && StopsAtEnd(body)
    requires var q := p + 3 + |lang|; var b := q + |HeaderText(path)|;
      && b + |body| + 3 <= |s|
      && s[p..p + 3] == "```" && s[p + 3..q] == lang && s[q..b] == HeaderText(path)
      && s[b..b + |body| + 3] == body + "```"
    ensures MatchAt(pat, s, p) == Some(Block(p, p + 3 + |lang| + |HeaderText(path)| + |body| + 3, lang, path, body))
  {
    var q := p + 3 + |lang|;
    var bodyStart := q + |HeaderText(path)|;
    assert FenceAt(s, p) by { assert s[p..p + 3] == "```"; }
    LangThenHeader(s, p + 3, lang, path);
    HeaderComplete(pat, s, q, path);
    BodyComplete(s, bodyStart, body);
    MatchAtParts(pat, s, p, lang, path, bodyStart, body);
  }

  /** The language ends where the header's `:` or newline starts. */
  lemma LangThenHeader(s: string, i: nat, lang: string, path: Option<string>)
    requires (forall k :: 0 <= k < |lang| ==> IsWordChar(lang[k]))
    requires var q := i + |lang|;
      && q + |HeaderText(path)| <= |s|
      && s[i..q] == lang && s[q..q + |HeaderText(path)|] == HeaderText(path)
    ensures WordRun(s, i) == |lang|
  {
    var q := i + |lang|;
    forall k | i <= k < q ensures IsWordChar(s[k]) {
      assert s[k] == s[i..q][k - i];
    }
    assert s[q] == s[q..q + |HeaderText(path)|][0];
    WordRunExact(s, i, |lang|);
  }

  lemma MatchAtParts(pat: Pattern, s: string, p: nat, lang: string, path: Option<string>, bodyStart: nat, body: string)
    requires p + 3 + |lang| <= |s| && FenceAt(s, p)
    requires WordRun(s, p + 3) == |lang| && s[p + 3..p + 3 + |lang|] == lang
    requires pat == LangAndPath ==> lang != []
    requires Header(pat, s, p + 3 + |lang|) == Some((path, bodyStart))
    requires bodyStart + |body| <= |s| && FindFence(s, bodyStart) == Some(bodyStart + |body|)
    requires s[bodyStart..bodyStart + |body|] == body
    ensures MatchAt(pat, s, p) == Some(Block(p, bodyStart + |body| + 3, lang, path, body))
  {
    var q := p + 3 + WordRun(s, p + 3);
    assert q == p + 3 + |lang| && s[p + 3..q] == lang;
    assert !(pat == LangAndPath && s[p + 3..q] == []) by {
      if pat == LangAndPath { assert |s[p + 3..q]| > 0; }
    }
    assert Header(pat, s, q) == Some((path, bodyStart));
    assert FindFence(s, bodyStart) == Some(bodyStart + |body|);
  }

  lemma SubSlice(s: string, p: nat, t: string, k: nat, m: nat)
    requires p + |t| <= |s| && s[p..p + |t|] == t && k <= m <= |t|
    ensures s[p + k..p + m] == t[k..m]
  {
    forall i | 0 <= i < m - k ensures s[p + k..p + m][i] == t[k..m][i] {
      assert s[p + k + i] == s[p..p + |t|][k + i];
    }
  }

  lemma BlockTextPieces(lang: string, path: Option<string>, body: string)
    ensures var t := BlockText(lang, path, body);
      var a := 3 + |lang|;
      var b := a + |HeaderText(path)|;
      && |t| == b + |body| + 3
      && t[..3] == "```" && t[3..a] == lang && t[a..b] == HeaderText(path)
      && t[b..] == body + "```"
  {
  }

  lemma HeaderComplete(pat: Pattern, s: string, q: nat, path: Option<string>)
    requires q + |HeaderText(path)| <= |s| && s[q..q + |HeaderText(path)|] == HeaderText(path)
    requires (pat == OptionalLang ==> path.None?) && (path.Some? ==> path.value != [] && '\n' !in path.value)
    ensures Header(pat, s, q) == Some((path, q + |HeaderText(path)|))
  {
    var h := HeaderText(path);
    assert s[q] == h[0];
    if path.Some? {
      var n := |path.value|;
      assert h[1..1 + n] == path.value;
      SubSlice(s, q, h, 1, 1 + n);
      assert s[q + 1 + n] == h[1 + n] == '\n';
      forall k | q + 1 <= k < q + 1 + n ensures s[k] != '\n' {
        assert s[k] == path.value[k - q - 1];
      }
      LineRunExact(s, q + 1, n);
    }
  }

  lemma BodyComplete(s: string, bodyStart: nat, body: string)
    requires bodyStart + |body| + 3 <= |s| && s[bodyStart..bodyStart + |body| + 3] == body + "```"
    requires StopsAtEnd(body)
    ensures FindFence(s, bodyStart) == Some(bodyStart + |body|)
    ensures s[bodyStart..bodyStart + |body|] == body
  {
    var close := bodyStart + |body|;
    var t := body + "```";
    SubSlice(s, bodyStart, t, 0, |body|);
    SubSlice(s, bodyStart, t, |body|, |t|);
    assert s[close..close + 3] == "```";
    assert FenceAt(s, close);
    forall j | bodyStart <= j < close ensures !FenceAt(s, j) {
      var k := j - bodyStart;
      assert !FenceAt(t, k);
      assert s[j] == t[k] && s[j + 1] == t[k + 1] && s[j + 2] == t[k + 2];
    }
    FindFenceFirst(s, bodyStart, close);
  }

  lemma WordRunExact(s: string, i: nat, n: nat)
    requires i + n <= |s|
    requires forall k :: i <= k < i + n ==> IsWordChar(s[k])
    requires i + n < |s| ==> !IsWordChar(s[i + n])
    ensures WordRun(s, i) == n
    decreases n
  {
    if n > 0 { WordRunExact(s, i + 1, n - 1); }
  }

  lemma LineRunExact(s: string, i: nat, n: nat)
    requires i + n < |s| && s[i + n] == '\n'
    requires forall k :: i <= k < i + n ==> s[k] != '\n'
    ensures LineRun(s, i) == n
    decreases n
  {
    if n > 0 { LineRunExact(s, i + 1, n - 1); }
  }

  lemma FindFenceFirst(s: string, i: nat, c: nat)
    requires i <= c && FenceAt(s, c)
    requires forall j :: i <= j < c ==> !FenceAt(s, j)
    ensures FindFence(s, i) == Some(c)
    decreases c - i
  {
    if i < c { FindFenceFirst(s, i + 1, c); }
  }

  /** Text without a backtick from `from` on has no match there. */
  lemma {:induction false} NoBacktickNoMatch(pat: Pattern, s: string, from: nat)
    requires from <= |s|
    requires forall j :: from <= j < |s| ==> s[j] != '`'
    ensures Exec(pat, s, from) == None
    decreases |s| - from
  {
    assert MatchAt(pat, s, from).None?;
    if from < |s| {
      NoBacktickNoMatch(pat, s, from + 1);
    }
  }

  /** Text without a backtick between `from` and `p` is skipped: the search
      goes on as if it had started at `p`. */
  lemma {:induction false} SkipPlainText(pat: Pattern, s: string, from: nat, p: nat)
    requires from <= p <= |s|
    requires forall j :: from <= j < p ==> s[j] != '`'
    ensures Exec(pat, s, from) == Exec(pat, s, p)
    decreases p - from
  {
    if from < p {
      assert MatchAt(pat, s, from).None?;
      SkipPlainText(pat, s, from + 1, p);
    }
  }
}
