/** String and option helpers shared by every module: the JavaScript string
    operations the server code relies on (includes, startsWith, endsWith,
    toLowerCase, trim, split, join, number-to-string), written over
    `seq<char>`. */
module Common {

  datatype Option<+T> = None | Some(value: T)

  /** A request field JavaScript treats as given: present and not `""`. */
  predicate Given(s: Option<string>) {
    s.Some? && s.value != []
  }

  /** `s.startsWith(p)` */
  predicate StartsWith(s: string, p: string) {
    |p| <= |s| && s[..|p|] == p
  }

  /** `s.endsWith(suffix)` */
  predicate EndsWith(s: string, suffix: string) {
    |suffix| <= |s| && s[|s| - |suffix|..] == suffix
  }

  /** `t` occurs in `s` at position `i` */
  predicate OccursAt(s: string, t: string, i: int) {
    0 <= i && i + |t| <= |s| && s[i..i + |t|] == t
  }

  /** `s.includes(t)` */
  predicate Contains(s: string, t: string) {
    exists i | 0 <= i <= |s| - |t| :: OccursAt(s, t, i)
  }

  lemma ContainsAt(s: string, t: string, i: int)
    requires OccursAt(s, t, i)
    ensures Contains(s, t)
  {
  }

  /** Whatever contains a word contains each of its prefixes. */
  lemma ContainsPrefixOf(s: string, t: string, n: nat)
    requires Contains(s, t) && n <= |t|
    ensures Contains(s, t[..n])
  {
    var i :| 0 <= i <= |s| - |t| && OccursAt(s, t, i);
    assert s[i..i + n] == s[i..i + |t|][..n];
    ContainsAt(s, t[..n], i);
  }

  lemma ContainsInPrefix(s: string, t: string, n: nat)
    requires n <= |s| && Contains(s[..n], t)
    ensures Contains(s, t)
  {
    var i :| 0 <= i <= n - |t| && OccursAt(s[..n], t, i);
    assert s[i..i + |t|] == s[..n][i..i + |t|];
    ContainsAt(s, t, i);
  }

  lemma ContainsLeft(a: string, b: string, t: string)
    requires Contains(a, t)
    ensures Contains(a + b, t)
  {
    var i :| 0 <= i <= |a| - |t| && OccursAt(a, t, i);
    assert (a + b)[i..i + |t|] == a[i..i + |t|];
    ContainsAt(a + b, t, i);
  }

  lemma ContainsRight(a: string, b: string, t: string)
    requires Contains(b, t)
    ensures Contains(a + b, t)
  {
    var i :| 0 <= i <= |b| - |t| && OccursAt(b, t, i);
    assert (a + b)[|a| + i..|a| + i + |t|] == b[i..i + |t|];
    ContainsAt(a + b, t, |a| + i);
  }

  /** The first position of `t` in `s` (`indexOf`). */
  function FindFrom(s: string, t: string): (r: Option<nat>)
    ensures r.Some? ==> OccursAt(s, t, r.value) && forall p :: 0 <= p < r.value ==> !OccursAt(s, t, p)
    ensures r.None? ==> forall p :: 0 <= p ==> !OccursAt(s, t, p)
    decreases |s|
  {
    if |s| < |t| then None
    else if s[..|t|] == t then Some(0)
    else match FindFrom(s[1..], t)
      case None =>
        assert forall p :: 1 <= p ==> (OccursAt(s, t, p) <==> OccursAt(s[1..], t, p - 1));
        None
      case Some(i) =>
        assert forall p :: 1 <= p ==> (OccursAt(s, t, p) <==> OccursAt(s[1..], t, p - 1));
        Some(i + 1)
  }

  lemma {:induction false} FindFromFirst(s: string, t: string, k: nat)
    requires OccursAt(s, t, k) && forall p :: 0 <= p < k ==> !OccursAt(s, t, p)
    ensures FindFrom(s, t) == Some(k)
  {
    var r := FindFrom(s, t);
    assert r.Some?;
    assert !(r.value < k);
  }

  /** Three pieces without a backtick join into text without one. */
  lemma PlainParts(a: string, b: string, c: string)
    requires '`' !in a && '`' !in b && '`' !in c
    ensures forall j :: 0 <= j < |a + b + c| ==> (a + b + c)[j] != '`'
  {
    assert '`' !in a + b + c;
  }

  /** Where the three parts of `pre + t + post` sit. */
  lemma ConcatParts(pre: string, t: string, post: string)
    ensures var s := pre + t + post;
      && s[|pre|..|pre| + |t|] == t
      && (forall j :: 0 <= j < |pre| ==> s[j] == pre[j])
      && (forall j :: |pre| + |t| <= j < |s| ==> s[j] == post[j - |pre| - |t|])
  {
  }

  /** The ASCII part of `toLowerCase`. */
  function LowerChar(c: char): (d: char)
    ensures 'A' <= c <= 'Z' ==> 'a' <= d <= 'z'
    ensures !('A' <= c <= 'Z') ==> d == c
  {
    if 'A' <= c <= 'Z' then (c as int + 32) as char else c
  }

  /** `s.toLowerCase()`, ASCII letters only */
  function ToLower(s: string): (r: string)
    ensures |r| == |s|
    ensures forall i :: 0 <= i < |s| ==> r[i] == LowerChar(s[i])
  {
    seq(|s|, i requires 0 <= i < |s| => LowerChar(s[i]))
  }

  /** Text without capital letters is its own lower case. */
  lemma ToLowerOfLower(s: string)
    requires forall i :: 0 <= i < |s| ==> !('A' <= s[i] <= 'Z')
    ensures ToLower(s) == s
  {
  }

  /** Lower-casing twice changes nothing more. */
  lemma ToLowerIdempotent(s: string)
    ensures ToLower(ToLower(s)) == ToLower(s)
  {
  }

  /** The characters `String.prototype.trim` removes: WhiteSpace and
      LineTerminator of ECMA-262. */
  predicate IsJsWhitespace(c: char) {
    c == '\t' || c == '\n' || c == '\U{B}' || c == '\U{C}' || c == '\r' || c == ' '
    || c == '\U{A0}' || c == '\U{1680}' || ('\U{2000}' <= c <= '\U{200A}')
    || c == '\U{2028}' || c == '\U{2029}' || c == '\U{202F}' || c == '\U{205F}'
    || c == '\U{3000}' || c == '\U{FEFF}'
  }

  function TrimStart(s: string): (r: string)
    ensures |r| <= |s|
  {
    if s != [] && IsJsWhitespace(s[0]) then TrimStart(s[1..]) else s
  }

  /** What `TrimStart` removes is a whitespace prefix, and what it keeps
      starts with a non-whitespace character. */
  lemma {:induction false} TrimStartSpec(s: string)
    ensures var r := TrimStart(s);
      && r == s[|s| - |r|..]
      && (r != [] ==> !IsJsWhitespace(r[0]))
      && (forall i :: 0 <= i < |s| - |r| ==> IsJsWhitespace(s[i]))
  {
    if s != [] && IsJsWhitespace(s[0]) {
      TrimStartSpec(s[1..]);
    }
  }

  function TrimEnd(s: string): (r: string)
    ensures |r| <= |s|
  {
    if s != [] && IsJsWhitespace(s[|s| - 1]) then TrimEnd(s[..|s| - 1]) else s
  }

  /** What `TrimEnd` removes is a whitespace suffix, and what it keeps ends
      with a non-whitespace character. */
  lemma {:induction false} TrimEndSpec(s: string)
    ensures var r := TrimEnd(s);
      && r == s[..|r|]
      && (r != [] ==> !IsJsWhitespace(r[|r| - 1]))
      && (forall i :: |r| <= i < |s| ==> IsJsWhitespace(s[i]))
  {
    if s != [] && IsJsWhitespace(s[|s| - 1]) {
      TrimEndSpec(s[..|s| - 1]);
    }
  }

  /** `s.trim()` */
  function Trim(s: string): (r: string)
  {
    TrimEnd(TrimStart(s))
  }

  /** The trimmed text is the slice of `s` between its leading and trailing
      whitespace, and it is empty exactly when `s` is all whitespace. */
  lemma TrimSpec(s: string)
    ensures exists i, j :: 0 <= i <= j <= |s| && Trim(s) == s[i..j]
    ensures Trim(s) != [] ==> !IsJsWhitespace(Trim(s)[0]) && !IsJsWhitespace(Trim(s)[|Trim(s)| - 1])
    ensures Trim(s) == [] <==> forall k :: 0 <= k < |s| ==> IsJsWhitespace(s[k])
  {
    var a := TrimStart(s);
    var i := |s| - |a|;
    var r := TrimEnd(a);
    TrimStartSpec(s);
    TrimEndSpec(a);
    assert r == s[i..i + |r|];
    assert r == [] ==> a == [];
  }

  /** Trimming an already trimmed text changes nothing. */
  lemma TrimIdempotent(s: string)
    ensures Trim(Trim(s)) == Trim(s)
  {
    TrimSpec(s);
    var t := Trim(s);
    if t != [] {
      TrimStartSpec(t);
      TrimEndSpec(t);
      assert TrimStart(t) == t;
      assert TrimEnd(t) == t;
    }
  }

  function DigitChar(d: nat): char
    requires d < 10
  {
    ['0', '1', '2', '3', '4', '5', '6', '7', '8', '9'][d]
  }

  /** Decimal rendering of a natural number, as a template literal renders it. */
  function NatToString(n: nat): (r: string)
    ensures |r| >= 1
    ensures forall c :: c in r ==> '0' <= c <= '9'
  {
    if n < 10 then [DigitChar(n)] else NatToString(n / 10) + [DigitChar(n % 10)]
  }

  /** `s.split(sep)` for a one-character separator: always at least one part,
      and the parts never contain the separator. */
  function Split(s: string, sep: char): (parts: seq<string>)
    ensures |parts| >= 1
    ensures forall i :: 0 <= i < |parts| ==> sep !in parts[i]
    decreases |s|
  {
    if sep !in s then [s]
    else
      var i := IndexOf(s, sep);
      [s[..i]] + Split(s[i + 1..], sep)
  }

  /** Index of the first occurrence of `c` in `s`. */
  function IndexOf(s: string, c: char): (i: nat)
    requires c in s
    ensures i < |s| && s[i] == c && c !in s[..i]
  {
    if s[0] == c then 0 else 1 + IndexOf(s[1..], c)
  }

  /** `parts.join(sep)` */
  function Join(parts: seq<string>, sep: string): string
  {
    if parts == [] then []
    else if |parts| == 1 then parts[0]
    else parts[0] + sep + Join(parts[1..], sep)
  }

  /** What one part contains, the joined text contains. */
  lemma {:induction false} JoinContainsPart(parts: seq<string>, sep: string, k: nat, t: string)
    requires k < |parts| && Contains(parts[k], t)
    ensures Contains(Join(parts, sep), t)
    decreases k
  {
    if |parts| > 1 {
      if k == 0 {
        ContainsLeft(parts[0], sep + Join(parts[1..], sep), t);
        assert parts[0] + sep + Join(parts[1..], sep) == parts[0] + (sep + Join(parts[1..], sep));
      } else {
        assert parts[1..][k - 1] == parts[k];
        JoinContainsPart(parts[1..], sep, k - 1, t);
        ContainsRight(parts[0] + sep, Join(parts[1..], sep), t);
      }
    }
  }

  /** A character in no part and not in the separator is not in the joined
      text. */
  lemma {:induction false} JoinFree(parts: seq<string>, sep: string, c: char)
    requires c !in sep && forall i :: 0 <= i < |parts| ==> c !in parts[i]
    ensures c !in Join(parts, sep)
  {
    if |parts| > 1 {
      JoinFree(parts[1..], sep, c);
    }
  }

  /** Splitting a joined list gives the list back, when no part holds the
      separator. */
  lemma {:induction false} SplitJoin(parts: seq<string>, sep: char)
    requires |parts| >= 1
    requires forall i :: 0 <= i < |parts| ==> sep !in parts[i]
    ensures Split(Join(parts, [sep]), sep) == parts
  {
    if |parts| == 1 {
    } else {
      var rest := Join(parts[1..], [sep]);
      var s := parts[0] + [sep] + rest;
      assert Join(parts, [sep]) == s;
      assert s[|parts[0]|] == sep;
      assert sep in s;
      IndexOfAfterFree(parts[0], sep, [sep] + rest);
      assert IndexOf(s, sep) == |parts[0]|;
      assert s[..|parts[0]|] == parts[0];
      assert s[|parts[0]| + 1..] == rest;
      SplitJoin(parts[1..], sep);
    }
  }

  lemma IndexOfAfterFree(a: string, c: char, b: string)
    requires c !in a && b != [] && b[0] == c
    ensures c in a + b && IndexOf(a + b, c) == |a|
  {
    assert (a + b)[|a|] == c;
    if a != [] {
      assert (a + b)[1..] == a[1..] + b;
      IndexOfAfterFree(a[1..], c, b);
    }
  }

  lemma IndexOfPrefix(a: string, b: string, c: char)
    requires c in a
    ensures c in a + b && IndexOf(a + b, c) == IndexOf(a, c)
  {
    var i := IndexOf(a, c);
    assert (a + b)[i] == c;
    assert (a + b)[..i] == a[..i];
  }

  /** A part without the separator is the first part of what it starts. */
  lemma SplitFirstPart(part: string, rest: string, sep: char)
    requires sep !in part
    ensures Split(part + [sep] + rest, sep) == [part] + Split(rest, sep)
  {
    IndexOfAfterFree(part, sep, [sep] + rest);
    var s := part + [sep] + rest;
    assert s == part + ([sep] + rest);
    assert s[..|part|] == part && s[|part| + 1..] == rest;
  }

  /** Splitting two texts joined by the separator gives the parts of the
      first followed by the parts of the second. */
  lemma {:induction false} SplitConcat(x: string, y: string, sep: char)
    ensures Split(x + [sep] + y, sep) == Split(x, sep) + Split(y, sep)
    decreases |x|
  {
    if sep !in x {
      SplitFirstPart(x, y, sep);
    } else {
      var i := IndexOf(x, sep);
      var p, x' := x[..i], x[i + 1..];
      assert x == p + [sep] + x';
      SplitConcat(x', y, sep);
      SplitConcatStep(p, x', y, sep);
    }
  }

  lemma SplitConcatStep(p: string, x': string, y: string, sep: char)
    requires sep !in p
    requires Split(x' + [sep] + y, sep) == Split(x', sep) + Split(y, sep)
    ensures Split(p + [sep] + x' + [sep] + y, sep) == Split(p + [sep] + x', sep) + Split(y, sep)
  {
    var rest := x' + [sep] + y;
    assert p + [sep] + x' + [sep] + y == p + [sep] + rest;
    calc {
      Split(p + [sep] + rest, sep);
      == { SplitFirstPart(p, rest, sep); }
      [p] + Split(rest, sep);
      ==
      [p] + (Split(x', sep) + Split(y, sep));
      ==
      ([p] + Split(x', sep)) + Split(y, sep);
      == { SplitFirstPart(p, x', sep); }
      Split(p + [sep] + x', sep) + Split(y, sep);
    }
  }

  /** `s.split(c).pop()`: the text after the last `c`, or the whole text
      when it has no `c`. */
  function AfterLast(s: string, c: char): (r: string)
    ensures c !in r
    ensures EndsWith(s, r)
    ensures c in s ==> |r| < |s| && s[|s| - |r| - 1] == c
  {
    if s == [] then []
    else
      var last := s[|s| - 1];
      if last == c then []
      else
        var init := s[..|s| - 1];
        var r := AfterLast(init, c) + [last];
        assert s == init + [last];
        assert c in s ==> c in init by {
          if c in s {
            var j :| 0 <= j < |s| && s[j] == c;
            assert init[j] == c;
          }
        }
        r
  }

  /** A text without `c` is its own text after the last `c`. */
  lemma {:induction false} AfterLastNone(s: string, c: char)
    requires c !in s
    ensures AfterLast(s, c) == s
  {
    if s != [] {
      var init := s[..|s| - 1];
      assert c !in init by { assert forall k :: 0 <= k < |init| ==> init[k] == s[k]; }
      AfterLastNone(init, c);
      assert s == init + [s[|s| - 1]];
    }
  }

  /** The text after the last `c` of `a + [c] + b` is `b` when `b` holds
      no `c`. */
  lemma {:induction false} AfterLastOf(a: string, c: char, b: string)
    requires c !in b
    ensures AfterLast(a + [c] + b, c) == b
    decreases |b|
  {
    var s := a + [c] + b;
    if b != [] {
      var init := b[..|b| - 1];
      assert s[|s| - 1] == b[|b| - 1] && s[..|s| - 1] == a + [c] + init;
      assert c !in init by { assert forall k :: 0 <= k < |init| ==> init[k] == b[k]; }
      AfterLastOf(a, c, init);
      assert b == init + [b[|b| - 1]];
    }
  }

}
