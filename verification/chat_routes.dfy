/** The local chat endpoint of server/chat-routes.ts: `POST /api/chat`
    picks one of four canned replies by keyword, each holding one fenced
    code block, and returns the reply with the files extracted from it.

    The code inside each canned reply is fixed text; the model takes it as
    the parameter `code` and states what it needs of it (no three backticks
    in a row, no backtick at its end, not blank), which all four templates
    satisfy. */
module ChatRoutes {
  import opened Common
  import opened Records
  import opened Fences
  import opened Extraction
  import opened Keywords

  /** The four canned replies. */
  datatype Template = Website | React | Python | Api

  /** `generateLocalResponse`: the first keyword group found in the
      lower-cased prompt decides, and a website is the default. */
  function ChooseTemplate(prompt: string): (t: Template)
    ensures var lp := ToLower(prompt);
      && (Contains(lp, "website") || Contains(lp, "landing") ==> t == Website)
      && ((!Contains(lp, "website") && !Contains(lp, "landing")
           && (Contains(lp, "react") || Contains(lp, "component"))) ==> t == React)
      && ((!Contains(lp, "website") && !Contains(lp, "landing")
           && !Contains(lp, "react") && !Contains(lp, "component")
           && (Contains(lp, "python") || Contains(lp, "script"))) ==> t == Python)
      && ((!Contains(lp, "website") && !Contains(lp, "landing")
           && !Contains(lp, "react") && !Contains(lp, "component")
           && !Contains(lp, "python") && !Contains(lp, "script")
           && (Contains(lp, "api") || Contains(lp, "backend"))) ==> t == Api)
      && (t == React ==> Contains(lp, "react") || Contains(lp, "component"))
      && (t == Python ==> Contains(lp, "python") || Contains(lp, "script"))
      && (t == Api ==> Contains(lp, "api") || Contains(lp, "backend"))
      && ((!Contains(lp, "react") && !Contains(lp, "component") && !Contains(lp, "python")
           && !Contains(lp, "script") && !Contains(lp, "api") && !Contains(lp, "backend")) ==> t == Website)
  {
    var lp := ToLower(prompt);
    if Contains(lp, "website") || Contains(lp, "landing") then Website
    else if Contains(lp, "react") || Contains(lp, "component") then React
    else if Contains(lp, "python") || Contains(lp, "script") then Python
    else if Contains(lp, "api") || Contains(lp, "backend") then Api
    else Website
  }

  /** The keyword groups of `generateLocalResponse`, in the order of its
      `if` chain, each labelled with the template it picks. */
  const TemplateRules: seq<Rule> := [
    Rule(["website", "landing"], "website"),
    Rule(["react", "component"], "react"),
    Rule(["python", "script"], "python"),
    Rule(["api", "backend"], "api")
  ]

  function TemplateTag(t: Template): string {
    match t
    case Website => "website"
    case React => "react"
    case Python => "python"
    case Api => "api"
  }

  /** The template is the label of the first group of the table with a
      keyword in the lower-cased prompt, a website when none has. */
  lemma ChooseTemplateByRules(prompt: string)
    ensures TemplateTag(ChooseTemplate(prompt)) == FirstMatch(TemplateRules, ToLower(prompt), "website")
  {
    var lp := ToLower(prompt);
    var rules := TemplateRules;
    AnyOfTwo(lp, "website", "landing");
    AnyOfTwo(lp, "react", "component");
    AnyOfTwo(lp, "python", "script");
    AnyOfTwo(lp, "api", "backend");
    if Contains(lp, "website") || Contains(lp, "landing") {
      FirstMatchIs(rules, lp, "website", 0);
    } else if Contains(lp, "react") || Contains(lp, "component") {
      FirstMatchIs(rules, lp, "website", 1);
    } else if Contains(lp, "python") || Contains(lp, "script") {
      FirstMatchIs(rules, lp, "website", 2);
    } else if Contains(lp, "api") || Contains(lp, "backend") {
      FirstMatchIs(rules, lp, "website", 3);
    } else {
      FirstMatchFallback(rules, lp, "website");
    }
  }

  /** The choice ignores letter case. */
  lemma ChooseTemplateIgnoresCase(prompt: string)
    ensures ChooseTemplate(ToLower(prompt)) == ChooseTemplate(prompt)
  {
    ToLowerIdempotent(prompt);
  }

  /** The sentence before the code block. */
  function Intro(t: Template): string {
    match t
    case Website => "I'll create " + "a modern, responsive " + "website for you!\n\n"
    case React => "I'll create " + "a modern React " + "application for you!\n\n"
    case Python => "I'll create " + "a Python application " + "for you!\n\n"
    case Api => "I'll create " + "a REST API " + "for you!\n\n"
  }

  /** The sentence has no backtick, so no match starts inside it. */
  lemma IntroPlain(t: Template)
    ensures forall j :: 0 <= j < |Intro(t)| ==> Intro(t)[j] != '`'
  {
    match t
    case Website => PlainParts("I'll create ", "a modern, responsive ", "website for you!\n\n");
    case React => PlainParts("I'll create ", "a modern React ", "application for you!\n\n");
    case Python => PlainParts("I'll create ", "a Python application ", "for you!\n\n");
    case Api => PlainParts("I'll create ", "a REST API ", "for you!\n\n");
  }

  /** The language written after the opening backticks. */
  function FenceLang(t: Template): string {
    match t
    case Website => "html"
    case React => "jsx"
    case Python => "python"
    case Api => "javascript"
  }

  /** The reply text: the sentence, the fenced code and a final newline. */
  function Reply(t: Template, code: string): string {
    Intro(t) + BlockText(FenceLang(t), None, code) + "\n"
  }

  /** `generateLocalResponse(prompt)`, with each template's code given. */
  function GenerateLocalResponse(prompt: string, code: Template -> string): string {
    var t := ChooseTemplate(prompt);
    Reply(t, code(t))
  }

  /** The name the chat extractor gives the file of each template. */
  function ExpectedName(t: Template): string {
    match t
    case Website => "index.html"
    case React => "App.jsx"
    case Python => "main.py"
    case Api => "script.js"
  }

  /** Every canned reply yields exactly one file: the template's file name,
      the trimmed code and the fence language. */
  lemma ReplyFiles(t: Template, code: string)
    requires StopsAtEnd(code) && Trim(code) != []
    ensures Extracted(Chat, Reply(t, code)) == [(ExpectedName(t), FileEntry(Trim(code), FenceLang(t)))]
  {
    ReplyBlocks(t, code);
    ExtractedOfOne(Chat, Reply(t, code));
    NameOfTemplate(t);
  }

  /** The reply holds exactly one block: the template's code. */
  lemma ReplyBlocks(t: Template, code: string)
    requires StopsAtEnd(code)
    ensures var n := |Intro(t)|;
      Blocks(OptionalLang, Reply(t, code), 0) == [Block(n, n + |BlockText(FenceLang(t), None, code)|, FenceLang(t), None, code)]
  {
    assert GroupsFit(OptionalLang, FenceLang(t), None);
    IntroPlain(t);
    BlockAmid(OptionalLang, Intro(t), FenceLang(t), code, "\n");
  }

  lemma NameOfTemplate(t: Template)
    ensures DefaultName(Chat, Language(FenceLang(t)), 0) == ExpectedName(t)
  {
    var table := NameTable(Chat);
    assert table[0].0 == "html";
    assert table[1..][1..][0].0 == "javascript";
    assert table[1..][1..][1..][1..][0].0 == "jsx";
    assert table[1..][1..][1..][1..][1..][0].0 == "python";
  }

  /** `extractFilesFromResponse`: run the fence pattern over the response
      and store each non-blank block under its default name. */
  method ExtractFilesFromResponse(response: string) returns (files: Files)
    ensures files == Extracted(Chat, response)
  {
    files := [];
    var lastIndex: nat := 0;
    var fileIndex: nat := 0;
    while true
      invariant lastIndex <= |response|
      invariant SetAll(files, Entries(StoreOf(Chat), Blocks(OptionalLang, response, lastIndex), fileIndex))
                == Extracted(Chat, response)
      decreases |response| - lastIndex
    {
      var m := Exec(OptionalLang, response, lastIndex);
      if m.None? {
        break;
      }
      var b := m.value;
      var rest := Blocks(OptionalLang, response, b.end);
      assert Blocks(OptionalLang, response, lastIndex) == [b] + rest;
      assert ([b] + rest)[1..] == rest;
      var language := Language(b.lang);
      var content := Trim(b.body);
      if content != [] {
        var filename := DefaultName(Chat, language, fileIndex);
        files := Set(files, filename, FileEntry(content, language));
        fileIndex := fileIndex + 1;
      }
      lastIndex := b.end;
    }
  }

  /** The body of `POST /api/chat`: 400 "Message is required", or the reply
      and its files. */
  datatype ChatResponse = MessageRequired | Generated(message: string, files: Files)

  /** `POST /api/chat`. A missing message (absent, null or another falsy
      value) and the empty string are both rejected. */
  method HandleChat(message: Option<string>, code: Template -> string) returns (r: ChatResponse)
    ensures r.MessageRequired? <==> message.None? || message.value == []
    ensures r.Generated? ==>
              r.message == GenerateLocalResponse(message.value, code) && r.files == Extracted(Chat, r.message)
  {
    if message.None? || message.value == [] {
      return MessageRequired;
    }
    var response := GenerateLocalResponse(message.value, code);
    var files := ExtractFilesFromResponse(response);
    r := Generated(response, files);
  }

  /** Whatever the prompt, an accepted chat request returns exactly one
      file, named after the chosen template. */
  lemma ChatReturnsOneFile(prompt: string, code: Template -> string)
    requires forall t: Template :: StopsAtEnd(code(t)) && Trim(code(t)) != []
    ensures var t := ChooseTemplate(prompt);
      Extracted(Chat, GenerateLocalResponse(prompt, code)) == [(ExpectedName(t), FileEntry(Trim(code(t)), FenceLang(t)))]
  {
    var t := ChooseTemplate(prompt);
    ReplyFiles(t, code(t));
  }
}
