/** server/enhanced-ai-api.ts: `generateProject` and its private
    `extractFilesFromResponse`.

    The extractor runs the pattern ```` ```(\w+)(?::([^\n]+))?\n([\s\S]*?)``` ````
    over the reply. As written its braces put two things in the wrong
    place: the assignment `files[filename] = …` and the counter increment
    sit inside the `else` branch of `if (filepath)`, so a block that names
    its path is given a name and then dropped; and `return files;` sits
    inside the `while`, so the loop returns after the first match and falls
    off the end (returning `undefined`) when there is none.
    `ExtractFilesFromResponse` models that; `ExtractFilesCorrected` models
    the evident intent, where every match is visited and every non-blank
    block is stored. */
module EnhancedAi {
  import opened Common
  import opened Records
  import opened Fences
  import opened Extraction

  /** What the extractor as written returns: `undefined` (None) when no
      block matches; otherwise an object holding at most the first match,
      which is dropped when it is blank or names a path, and is otherwise
      stored under its default name with the counter at zero. */
  function FirstBlockFiles(s: string): (r: Option<Files>)
    ensures r.Some? <==> Blocks(LangAndPath, s, 0) != []
    ensures r.Some? ==> |r.value| <= 1
  {
    var bs := Blocks(LangAndPath, s, 0);
    if bs == [] then None
    else if Blank(bs[0]) || bs[0].path.Some? then Some([])
    else Some([EntryFor(Enhanced, bs[0], 0)])
  }

  /** `extractFilesFromResponse` as written. The body of its `while` ends
      in `return files`, so the loop runs at most once: it is an `if` on the
      first `exec`, and without a match the method falls off its end. */
  method ExtractFilesFromResponse(response: string) returns (files: Option<Files>)
    ensures files == FirstBlockFiles(response)
  {
    var result: Files := [];
    var fileIndex: nat := 0;
    var m := Exec(LangAndPath, response, 0);
    if m.None? {
      return None;
    }
    var b := m.value;
    BlocksStep(LangAndPath, response, 0, b);
    var language := Language(b.lang);
    var content := Trim(b.body);
    if content != [] {
      var filename: string;
      if b.path.Some? {
        filename := Trim(b.path.value);
      } else {
        filename := DefaultName(Enhanced, language, fileIndex);
        result := Set(result, filename, FileEntry(content, language));
        fileIndex := fileIndex + 1;
      }
    }
    return Some(result);
  }

  /** The same loop with the store and the counter moved after the
      `if (filepath)` choice of name: a block with a path is stored under
      its trimmed path. */
  method ExtractFilesCorrected(response: string) returns (files: Files)
    ensures files == Extracted(Enhanced, response)
  {
    files := [];
    var lastIndex: nat := 0;
    var fileIndex: nat := 0;
    while true
      invariant lastIndex <= |response|
      invariant SetAll(files, Entries(StoreOf(Enhanced), Blocks(LangAndPath, response, lastIndex), fileIndex))
                == Extracted(Enhanced, response)
      decreases |response| - lastIndex
    {
      var m := Exec(LangAndPath, response, lastIndex);
      if m.None? {
        break;
      }
      var b := m.value;
      var rest := Blocks(LangAndPath, response, b.end);
      assert Blocks(LangAndPath, response, lastIndex) == [b] + rest;
      assert ([b] + rest)[1..] == rest;
      var language := Language(b.lang);
      var content := Trim(b.body);
      if content != [] {
        var filename: string;
        if b.path.Some? {
          filename := Trim(b.path.value);
        } else {
          filename := DefaultName(Enhanced, language, fileIndex);
        }
        files := Set(files, filename, FileEntry(content, language));
        fileIndex := fileIndex + 1;
      }
      lastIndex := b.end;
    }
  }

  /** Corrected, every non-blank block with a path is stored under that
      path, trimmed. */
  lemma PathBlockStored(s: string, i: nat)
    requires i < |Blocks(LangAndPath, s, 0)|
    requires Blocks(LangAndPath, s, 0)[i].path.Some? && !Blank(Blocks(LangAndPath, s, 0)[i])
    ensures Trim(Blocks(LangAndPath, s, 0)[i].path.value) in Keys(Extracted(Enhanced, s))
  {
    var k := KeptBlockStored(Enhanced, s, i);
  }

  /** The one-block reply "```ts:a.ts\nlet x = 1;\n```" yields no file as
      written and the file `a.ts` once corrected. */
  lemma PathBlockDropped()
    ensures FirstBlockFiles(BlockText("ts", Some("a.ts"), "let x = 1;\n")) == Some([])
    ensures Extracted(Enhanced, BlockText("ts", Some("a.ts"), "let x = 1;\n"))
            == [("a.ts", FileEntry("let x = 1;", "ts"))]
  {
    var s := BlockText("ts", Some("a.ts"), "let x = 1;\n");
    SampleBlocks();
    SampleTrims();
    ExtractedOfOne(Enhanced, s);
  }

  lemma SampleBlocks()
    ensures var s := BlockText("ts", Some("a.ts"), "let x = 1;\n");
      Blocks(LangAndPath, s, 0) == [Block(0, |s|, "ts", Some("a.ts"), "let x = 1;\n")]
  {
    var body := "let x = 1;\n";
    var s := BlockText("ts", Some("a.ts"), body);
    assert IsWordChar('t') && IsWordChar('s');
    assert GroupsFit(LangAndPath, "ts", Some("a.ts"));
    assert forall j :: 0 <= j < |body| ==> (body + "```")[j] == body[j];
    assert StopsAtEnd(body);
    assert s[0..|s|] == s;
    BlocksOfOne(LangAndPath, s, 0, "ts", Some("a.ts"), body);
  }

  lemma SampleTrims()
    ensures Trim("let x = 1;\n") == "let x = 1;" && Trim("a.ts") == "a.ts"
  {
    var body := "let x = 1;\n";
    assert TrimStart(body) == body;
    assert TrimEnd(body) == TrimEnd(body[..|body| - 1]);
    assert body[..|body| - 1] == "let x = 1;";
    assert TrimStart("a.ts") == "a.ts";
  }

  /** With two non-blank blocks and no paths, the extractor as written
      keeps only the first, while the corrected one assigns both, the second
      after the first. */
  lemma OnlyFirstBlockStored(lang1: string, body1: string, lang2: string, body2: string)
    requires GroupsFit(LangAndPath, lang1, None) && StopsAtEnd(body1) && Trim(body1) != []
    requires GroupsFit(LangAndPath, lang2, None) && StopsAtEnd(body2) && Trim(body2) != []
    ensures var t1 := BlockText(lang1, None, body1);
            var s := t1 + BlockText(lang2, None, body2);
            var e0 := EntryFor(Enhanced, Block(0, |t1|, lang1, None, body1), 0);
            var e1 := EntryFor(Enhanced, Block(|t1|, |s|, lang2, None, body2), 1);
            && FirstBlockFiles(s) == Some([e0])
            && Extracted(Enhanced, s) == Set(Set([], e0.0, e0.1), e1.0, e1.1)
  {
    var t1, t2 := BlockText(lang1, None, body1), BlockText(lang2, None, body2);
    var s := t1 + t2;
    assert s[..|t1|] == t1 && s[|t1|..] == t2;
    BlocksOfTwo(LangAndPath, s, lang1, None, body1, lang2, None, body2);
    ExtractedOfTwo(Enhanced, s);
  }

  /** The reply "```html\nA\n``````css\nB\n```", for any letters in place
      of `A` and `B`: as written only `index.html` comes back; corrected,
      `index.html` and `styles.css`. */
  lemma SecondBlockIgnored(a: char, b: char)
    requires 'A' <= a <= 'Z' && 'A' <= b <= 'Z'
    ensures var s := BlockText("html", None, [a, '\n']) + BlockText("css", None, [b, '\n']);
            && FirstBlockFiles(s) == Some([("index.html", FileEntry([a], "html"))])
            && Keys(Extracted(Enhanced, s)) == ["index.html", "styles.css"]
  {
    HtmlCssFit();
    OneLineBody(a);
    OneLineBody(b);
    OnlyFirstBlockStored("html", [a, '\n'], "css", [b, '\n']);
    HtmlCssNames();
    var t1 := BlockText("html", None, [a, '\n']);
    var s := t1 + BlockText("css", None, [b, '\n']);
    LetterEntry("html", "index.html", a, 0, |t1|, 0);
    LetterEntry("css", "styles.css", b, |t1|, |s|, 1);
    var e0 := ("index.html", FileEntry([a], "html"));
    var e1 := ("styles.css", FileEntry([b], "css"));
    TwoKeys(e0.0, e0.1, e1.0, e1.1);
  }

  /** The entry a pathless block of one letter and a newline stores, for a
      language in the name table. */
  lemma LetterEntry(lang: string, name: string, c: char, start: nat, end: nat, index: nat)
    requires lang != [] && Get(NameTable(Enhanced), lang) == Some(name)
    requires 'A' <= c <= 'Z'
    ensures EntryFor(Enhanced, Block(start, end, lang, None, [c, '\n']), index) == (name, FileEntry([c], lang))
  {
    OneLineBody(c);
  }

  lemma HtmlCssFit()
    ensures GroupsFit(LangAndPath, "html", None) && GroupsFit(LangAndPath, "css", None)
  {
    assert "html" == ['h', 't', 'm', 'l'] && "css" == ['c', 's', 's'];
  }

  /** The first two rows of the name table. */
  lemma HtmlCssNames()
    ensures Get(NameTable(Enhanced), "html") == Some("index.html")
    ensures Get(NameTable(Enhanced), "css") == Some("styles.css")
  {
    var table := NameTable(Enhanced);
    assert table[0] == ("html", "index.html") && table[1] == ("css", "styles.css");
    assert "html" != "css" by { assert "html"[0] != "css"[0]; }
    assert Get(table, "css") == Get(table[1..], "css");
    assert table[1..][0] == ("css", "styles.css");
  }

  /** A body of one non-space letter and a newline stops at its fence and
      trims to the letter. */
  lemma OneLineBody(c: char)
    requires 'A' <= c <= 'Z'
    ensures StopsAtEnd([c, '\n']) && Trim([c, '\n']) == [c]
  {
    var body := [c, '\n'];
    assert forall j :: 0 <= j < |body| ==> (body + "```")[j] == body[j];
    assert TrimStart(body) == body;
    assert TrimEnd(body) == TrimEnd(body[..1]);
    assert body[..1] == [c];
  }

  /** On a reply with one block and no path the two agree: the bug shows
      only with a path or a second block. */
  lemma OneBlockAgrees(s: string)
    requires |Blocks(LangAndPath, s, 0)| == 1 && Blocks(LangAndPath, s, 0)[0].path.None?
    ensures FirstBlockFiles(s) == Some(Extracted(Enhanced, s))
  {
    ExtractedOfOne(Enhanced, s);
  }

  /** What `generateProject` returns. */
  datatype GenerationResult = Failure(error: string) | Success(message: string, files: Files)

  /** What the model call produced: the reply text, or a thrown value (an
      `Error` with its message, or something else). */
  datatype ModelReply = Text(text: string) | Threw(message: Option<string>)

  const NotConfiguredError := "Gemini API not configured. GEMINI_API_KEY environment variable is required."

  /** `generateProject`: without an API key it fails with a fixed message;
      otherwise a failed model call becomes a failure whose message names
      the error, and a reply becomes a success carrying the reply and the
      files extracted from it by the corrected extractor. It never throws. */
  method GenerateProject(configured: bool, reply: ModelReply) returns (r: GenerationResult)
    ensures r.Failure? <==> !configured || reply.Threw?
    ensures !configured ==> r == Failure(NotConfiguredError)
    ensures configured && reply.Threw? ==>
              r.error == "Gemini API Error: " + (if reply.message.Some? then reply.message.value else "Unknown Gemini API error")
    ensures r.Success? ==> r.message == reply.text && r.files == Extracted(Enhanced, reply.text)
  {
    if !configured {
      return Failure(NotConfiguredError);
    }
    match reply
    case Threw(message) =>
      var text := if message.Some? then message.value else "Unknown Gemini API error";
      r := Failure("Gemini API Error: " + text);
    case Text(text) =>
      var files := ExtractFilesCorrected(text);
      r := Success(text, files);
  }
}
