/** What the two `extractFilesFromResponse` loops compute, as a
    specification: the successive matches of the fence pattern, the entry
    each non-blank match produces (its name from the language table or the
    path, a counter that advances once per stored entry), and the object
    those entries are assigned into. */
module Extraction {
  import opened Common
  import opened Records
  import opened Fences

  /** Which extractor: chat-routes.ts (optional language, no path), or
      enhanced-ai-api.ts (language required, optional path) with its loop
      corrected, so that every match is visited and a block with a path is
      stored under its trimmed path. */
  datatype Dialect = Chat | Enhanced

  function PatternOf(d: Dialect): Pattern {
    if d == Chat then OptionalLang else LangAndPath
  }

  /** `match[1] || 'text'` */
  function Language(lang: string): (l: string)
    ensures l != []
    ensures lang != [] ==> l == lang
  {
    if lang == [] then "text" else lang
  }

  /** The per-language names, in the order the `if` chain tests them. Only
      the enhanced table knows TypeScript. */
  function NameTable(d: Dialect): Record<string> {
    [("html", "index.html"), ("css", "styles.css"), ("javascript", "script.js"), ("js", "script.js"),
     ("jsx", "App.jsx"), ("python", "main.py"), ("json", "data.json")]
    + (if d != Chat then [("typescript", "main.ts"), ("ts", "main.ts")] else [])
  }

  /** The name a block without a path gets: the per-language table, and
      otherwise `file{index + 1}.{language}`. */
  function DefaultName(d: Dialect, language: string, index: nat): (name: string)
  {
    match Get(NameTable(d), language)
    case Some(n) => n
    case None => "file" + NatToString(index + 1) + "." + language
  }

  /** What one kept block stores: its name and its trimmed body with its
      language. */
  function EntryFor(d: Dialect, b: Block, index: nat): (e: (string, FileEntry))
  {
    var language := Language(b.lang);
    var name := if d == Enhanced && b.path.Some? then Trim(b.path.value) else DefaultName(d, language, index);
    (name, FileEntry(Trim(b.body), language))
  }

  /** Every match `exec` returns, in order, starting with `lastIndex ==
      from`. */
  function Blocks(pat: Pattern, s: string, from: nat): (bs: seq<Block>)
    requires from <= |s|
    decreases |s| - from
  {
    match Exec(pat, s, from)
    case None => []
    case Some(b) => [b] + Blocks(pat, s, b.end)
  }

  /** The `i`-th block is a real match after `from`, and it ends no later
      than the next one starts: the matches come in order without
      overlap. */
  lemma {:induction false} BlockIsMatch(pat: Pattern, s: string, from: nat, i: nat)
    requires from <= |s| && i < |Blocks(pat, s, from)|
    ensures var b := Blocks(pat, s, from)[i];
      from <= b.start < b.end <= |s| && MatchAt(pat, s, b.start) == Some(b)
    ensures i + 1 < |Blocks(pat, s, from)| ==> Blocks(pat, s, from)[i].end <= Blocks(pat, s, from)[i + 1].start
    decreases |s| - from
  {
    var bs := Blocks(pat, s, from);
    var b := Exec(pat, s, from).value;
    var rest := Blocks(pat, s, b.end);
    BlocksStep(pat, s, from, b);
    ExecLeftmost(pat, s, from);
    if i > 0 {
      BlockIsMatch(pat, s, b.end, i - 1);
      assert bs[i] == rest[i - 1];
      if i + 1 < |bs| { assert bs[i + 1] == rest[i]; }
    } else if rest != [] {
      BlockIsMatch(pat, s, b.end, 0);
      assert bs[0] == b && bs[1] == rest[0];
    }
  }

  /** The search skips nothing: no match starts between `from` and the
      first block, or anywhere from `from` on when there is no block. */
  lemma NothingBeforeFirst(pat: Pattern, s: string, from: nat, q: nat)
    requires from <= q <= |s|
    requires Blocks(pat, s, from) == [] || q < Blocks(pat, s, from)[0].start
    ensures MatchAt(pat, s, q).None?
  {
    ExecLeftmost(pat, s, from);
  }

  /** Nor between one block's end and the next block's start, nor after the
      last block. */
  lemma {:induction false} NothingBetween(pat: Pattern, s: string, from: nat, i: nat, q: nat)
    requires from <= |s| && i < |Blocks(pat, s, from)|
    requires Blocks(pat, s, from)[i].end <= q <= |s|
    requires i + 1 == |Blocks(pat, s, from)| || q < Blocks(pat, s, from)[i + 1].start
    ensures MatchAt(pat, s, q).None?
    decreases i
  {
    var b := Exec(pat, s, from).value;
    var rest := Blocks(pat, s, b.end);
    assert Blocks(pat, s, from) == [b] + rest;
    if i > 0 {
      NothingBetween(pat, s, b.end, i - 1, q);
    } else {
      NothingBeforeFirst(pat, s, b.end, q);
    }
  }

  /** A block whose trimmed body is empty: `if (content)` skips it. */
  predicate Blank(b: Block) {
    Trim(b.body) == []
  }

  /** The blocks whose trimmed body is non-empty: the ones `if (content)`
      keeps. */
  function Kept(bs: seq<Block>): (ks: seq<Block>)
    ensures |ks| <= |bs|
  {
    if bs == [] then []
    else if Blank(bs[0]) then Kept(bs[1..])
    else [bs[0]] + Kept(bs[1..])
  }

  /** The entry a dialect stores for a kept block and a counter value. */
  function StoreOf(d: Dialect): (Block, nat) -> (string, FileEntry) {
    (b: Block, index: nat) => EntryFor(d, b, index)
  }

  /** The assignments the loop performs, in order, with the counter starting
      at `index`: each kept block is stored by `store` with the current
      counter, which then advances. */
  function Entries(store: (Block, nat) -> (string, FileEntry), bs: seq<Block>, index: nat): seq<(string, FileEntry)>
  {
    if bs == [] then []
    else if Blank(bs[0]) then Entries(store, bs[1..], index)
    else [store(bs[0], index)] + Entries(store, bs[1..], index + 1)
  }

  /** The counter counts stored entries, not matches: the `j`-th kept block
      is stored under counter `index + j`, and blank blocks store nothing. */
  lemma {:induction false} EntriesOfKept(store: (Block, nat) -> (string, FileEntry), bs: seq<Block>, index: nat, j: nat)
    requires j < |Kept(bs)|
    ensures |Entries(store, bs, index)| == |Kept(bs)|
    ensures Entries(store, bs, index)[j] == store(Kept(bs)[j], index + j)
    ensures !Blank(Kept(bs)[j])
    decreases |bs|
  {
    EntriesLength(store, bs, index);
    var tail := bs[1..];
    if Blank(bs[0]) {
      assert Kept(bs) == Kept(tail);
      assert Entries(store, bs, index) == Entries(store, tail, index);
      EntriesOfKept(store, tail, index, j);
    } else {
      var e := store(bs[0], index);
      assert Kept(bs) == [bs[0]] + Kept(tail);
      assert Entries(store, bs, index) == [e] + Entries(store, tail, index + 1);
      if j > 0 {
        EntriesOfKept(store, tail, index + 1, j - 1);
        assert Kept(bs)[j] == Kept(tail)[j - 1];
        assert Entries(store, bs, index)[j] == Entries(store, tail, index + 1)[j - 1];
      }
    }
  }

  lemma {:induction false} EntriesLength(store: (Block, nat) -> (string, FileEntry), bs: seq<Block>, index: nat)
    ensures |Entries(store, bs, index)| == |Kept(bs)|
    decreases |bs|
  {
    if bs != [] {
      EntriesLength(store, bs[1..], if Blank(bs[0]) then index else index + 1);
    }
  }

  /** The matches that reach the `if (content)` test and the store. */
  function Candidates(d: Dialect, s: string): seq<Block> {
    Blocks(PatternOf(d), s, 0)
  }

  /** The assignments the loop performs on a response. */
  function Stored(d: Dialect, s: string): seq<(string, FileEntry)> {
    Entries(StoreOf(d), Candidates(d, s), 0)
  }

  /** The object `extractFilesFromResponse` returns. */
  function Extracted(d: Dialect, s: string): Files {
    SetAll([], Stored(d, s))
  }

  /** A name is a key of the result exactly when some kept block is stored
      under it. */
  lemma ExtractedKeys(d: Dialect, s: string, name: string)
    ensures name in Keys(Extracted(d, s)) <==> exists j :: 0 <= j < |Stored(d, s)| && Stored(d, s)[j].0 == name
  {
    SetAllFreshKeys(Stored(d, s), name);
  }

  /** Later blocks overwrite earlier ones with the same name: the value
      under a name is that of the last block stored under it. */
  lemma ExtractedGet(d: Dialect, s: string, name: string)
    ensures Get(Extracted(d, s), name) == LastFor(Entries(StoreOf(d), Candidates(d, s), 0), name)
  {
    SetAllGet([], Entries(StoreOf(d), Candidates(d, s), 0), name);
  }

  /** No name is stored twice. */
  lemma ExtractedUnique(d: Dialect, s: string)
    ensures UniqueKeys(Extracted(d, s))
  {
    SetAllUnique([], Entries(StoreOf(d), Candidates(d, s), 0));
  }

  /** Every stored file is non-blank and already trimmed. */
  lemma ExtractedContent(d: Dialect, s: string, name: string)
    requires Get(Extracted(d, s), name).Some?
    ensures var f := Get(Extracted(d, s), name).value;
      f.content != [] && Trim(f.content) == f.content && f.language != []
  {
    var bs := Candidates(d, s);
    var es := Entries(StoreOf(d), bs, 0);
    ExtractedGet(d, s, name);
    var j := LastForAt(es, name);
    EntriesLength(StoreOf(d), bs, 0);
    EntriesOfKept(StoreOf(d), bs, 0, j);
    var b := Kept(bs)[j];
    TrimIdempotent(b.body);
  }

  /** The value `LastFor` finds is one of the listed pairs. */
  lemma {:induction false} LastForAt<V>(es: seq<(string, V)>, k: string) returns (j: nat)
    requires LastFor(es, k).Some?
    ensures j < |es| && es[j] == (k, LastFor(es, k).value)
    decreases |es|
  {
    if es[|es| - 1].0 == k {
      j := |es| - 1;
    } else {
      j := LastForAt(es[..|es| - 1], k);
    }
  }

  /** Where a non-blank block sits among the kept ones: after exactly the
      kept blocks before it. */
  lemma {:induction false} KeptIndex(bs: seq<Block>, i: nat) returns (k: nat)
    requires i < |bs| && !Blank(bs[i])
    ensures k <= i && k < |Kept(bs)| && Kept(bs)[k] == bs[i]
    decreases i
  {
    assert Kept(bs) == if Blank(bs[0]) then Kept(bs[1..]) else [bs[0]] + Kept(bs[1..]);
    if i == 0 {
      k := 0;
    } else {
      var k' := KeptIndex(bs[1..], i - 1);
      k := if Blank(bs[0]) then k' else k' + 1;
    }
  }

  /** Every non-blank block that reaches the store names a key of the
      result: the name its entry gets with the counter value `k` it was
      given, `k` being the number of entries stored before it. */
  lemma KeptBlockStored(d: Dialect, s: string, i: nat) returns (k: nat)
    requires i < |Candidates(d, s)| && !Blank(Candidates(d, s)[i])
    ensures k <= i
    ensures EntryFor(d, Candidates(d, s)[i], k).0 in Keys(Extracted(d, s))
  {
    var bs := Candidates(d, s);
    k := KeptIndex(bs, i);
    EntriesOfKept(StoreOf(d), bs, 0, k);
    assert StoreOf(d)(bs[i], k) == EntryFor(d, bs[i], k);
    ExtractedKeys(d, s, EntryFor(d, bs[i], k).0);
  }

  /** A non-blank block without a path whose language is in the table is
      stored under the table's name. */
  lemma TableNameStored(d: Dialect, s: string, i: nat, name: string)
    requires i < |Candidates(d, s)| && !Blank(Candidates(d, s)[i]) && Candidates(d, s)[i].path.None?
    requires Get(NameTable(d), Language(Candidates(d, s)[i].lang)) == Some(name)
    ensures name in Keys(Extracted(d, s))
  {
    var k := KeptBlockStored(d, s, i);
  }

  /** A response in which the pattern matches nowhere gives no files. */
  lemma NoMatchNoFiles(d: Dialect, s: string)
    requires forall q :: 0 <= q <= |s| ==> MatchAt(PatternOf(d), s, q).None?
    ensures Extracted(d, s) == []
  {
    ExecLeftmost(PatternOf(d), s, 0);
    assert Blocks(PatternOf(d), s, 0) == [];
  }

  /** `exec` started before a well-formed block, with only backtick-free
      text in between, returns that block. */
  lemma ExecFindsBlock(pat: Pattern, s: string, from: nat, p: nat, lang: string, path: Option<string>, body: string)
    requires GroupsFit(pat, lang, path) && StopsAtEnd(body)
    requires var t := BlockText(lang, path, body); from <= p && p + |t| <= |s| && s[p..p + |t|] == t
    requires forall j :: from <= j < p ==> s[j] != '`'
    ensures Exec(pat, s, from) == Some(Block(p, p + |BlockText(lang, path, body)|, lang, path, body))
  {
    SkipPlainText(pat, s, from, p);
    MatchBlockAt(pat, s, p, lang, path, body);
  }

  /** A response holding one well-formed block, and no backtick before or
      after it, yields exactly that block. */
  lemma BlocksOfOne(pat: Pattern, s: string, p: nat, lang: string, path: Option<string>, body: string)
    requires GroupsFit(pat, lang, path) && StopsAtEnd(body)
    requires var t := BlockText(lang, path, body); p + |t| <= |s| && s[p..p + |t|] == t
    requires forall j :: 0 <= j < p ==> s[j] != '`'
    requires forall j :: p + |BlockText(lang, path, body)| <= j < |s| ==> s[j] != '`'
    ensures Blocks(pat, s, 0) == [Block(p, p + |BlockText(lang, path, body)|, lang, path, body)]
  {
    var e := p + |BlockText(lang, path, body)|;
    ExecFindsBlock(pat, s, 0, p, lang, path, body);
    NoBacktickNoMatch(pat, s, e);
    assert Blocks(pat, s, e) == [];
  }

  /** A block written between texts with no backtick is the only block. */
  lemma BlockAmid(pat: Pattern, pre: string, lang: string, body: string, post: string)
    requires GroupsFit(pat, lang, None) && StopsAtEnd(body)
    requires forall j :: 0 <= j < |pre| ==> pre[j] != '`'
    requires '`' !in post
    ensures Blocks(pat, pre + BlockText(lang, None, body) + post, 0) ==
            [Block(|pre|, |pre| + |BlockText(lang, None, body)|, lang, None, body)]
  {
    var bt := BlockText(lang, None, body);
    var s := pre + bt + post;
    ConcatParts(pre, bt, post);
    assert forall j :: 0 <= j < |pre| ==> s[j] != '`';
    assert forall j :: |pre| + |bt| <= j < |s| ==> s[j] != '`' by {
      forall j | |pre| + |bt| <= j < |s| ensures s[j] != '`' {
        assert s[j] == post[j - |pre| - |bt|];
      }
    }
    BlocksOfOne(pat, s, |pre|, lang, None, body);
  }

  /** Two well-formed blocks written back to back, with no backtick after
      them, yield both, in order. */
  lemma BlocksOfTwo(pat: Pattern, s: string, lang1: string, path1: Option<string>, body1: string,
                    lang2: string, path2: Option<string>, body2: string)
    requires GroupsFit(pat, lang1, path1) && StopsAtEnd(body1)
    requires GroupsFit(pat, lang2, path2) && StopsAtEnd(body2)
    requires var n1 := |BlockText(lang1, path1, body1)|; var n2 := |BlockText(lang2, path2, body2)|;
      && n1 + n2 == |s|
      && s[..n1] == BlockText(lang1, path1, body1)
      && s[n1..] == BlockText(lang2, path2, body2)
    ensures var n1 := |BlockText(lang1, path1, body1)|;
      Blocks(pat, s, 0) == [Block(0, n1, lang1, path1, body1), Block(n1, |s|, lang2, path2, body2)]
  {
    var n1 := |BlockText(lang1, path1, body1)|;
    assert s[0..n1] == s[..n1];
    assert s[n1..|s|] == s[n1..];
    ExecFindsBlock(pat, s, 0, 0, lang1, path1, body1);
    BlocksStep(pat, s, 0, Block(0, n1, lang1, path1, body1));
    ExecFindsBlock(pat, s, n1, n1, lang2, path2, body2);
    BlocksStep(pat, s, n1, Block(n1, |s|, lang2, path2, body2));
    NoBacktickNoMatch(pat, s, |s|);
    assert Blocks(pat, s, |s|) == [];
  }

  /** One step of the `exec` loop. */
  lemma BlocksStep(pat: Pattern, s: string, from: nat, b: Block)
    requires from <= |s| && Exec(pat, s, from) == Some(b)
    ensures Blocks(pat, s, from) == [b] + Blocks(pat, s, b.end)
  {
  }

  /** What `Extracted` gives when one block reaches the store. */
  lemma ExtractedOfOne(d: Dialect, s: string)
    requires |Candidates(d, s)| == 1
    ensures var b := Candidates(d, s)[0];
      Extracted(d, s) == if Blank(b) then [] else [EntryFor(d, b, 0)]
  {
    var bs := Candidates(d, s);
    EntriesOfOne(StoreOf(d), bs);
    if !Blank(bs[0]) {
      var e := EntryFor(d, bs[0], 0);
      assert Stored(d, s) == [e];
      assert SetAll([], [e]) == SetAll(Set([], e.0, e.1), []);
    }
  }

  /** A single block stores its entry, unless it is blank. */
  lemma EntriesOfOne(st: (Block, nat) -> (string, FileEntry), bs: seq<Block>)
    requires |bs| == 1
    ensures Entries(st, bs, 0) == if Blank(bs[0]) then [] else [st(bs[0], 0)]
  {
    assert bs[1..] == [];
  }

  /** What `Extracted` gives when two non-blank blocks reach the store: the
      second is assigned after the first. */
  lemma ExtractedOfTwo(d: Dialect, s: string)
    requires |Candidates(d, s)| == 2
    requires !Blank(Candidates(d, s)[0]) && !Blank(Candidates(d, s)[1])
    ensures var bs := Candidates(d, s);
      var e0 := EntryFor(d, bs[0], 0); var e1 := EntryFor(d, bs[1], 1);
      Extracted(d, s) == Set(Set([], e0.0, e0.1), e1.0, e1.1)
  {
    var bs := Candidates(d, s);
    EntriesOfTwo(StoreOf(d), bs);
    var e0, e1 := EntryFor(d, bs[0], 0), EntryFor(d, bs[1], 1);
    assert Stored(d, s) == [e0, e1];
    SetAllOfTwo(e0, e1);
  }

  /** Two non-blank blocks store their entries under counters 0 and 1. */
  lemma EntriesOfTwo(st: (Block, nat) -> (string, FileEntry), bs: seq<Block>)
    requires |bs| == 2 && !Blank(bs[0]) && !Blank(bs[1])
    ensures Entries(st, bs, 0) == [st(bs[0], 0), st(bs[1], 1)]
  {
    assert bs[1..][0] == bs[1] && bs[1..][1..] == [];
    assert Entries(st, bs[1..], 1) == [st(bs[1], 1)];
  }


  /** A response without a complete fenced block gives no files. */
  lemma NoBacktickNoFiles(d: Dialect, s: string)
    requires '`' !in s
    ensures Extracted(d, s) == []
  {
    NoBacktickNoMatch(PatternOf(d), s, 0);
  }
}
