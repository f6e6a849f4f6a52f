/** server/gemini-chat.ts, its local part: the keyword classifiers that
    label a prompt (project type, architecture), the per-extension file
    description, the feature list, and the local analysis reply that
    `generateGeminiResponse` falls back to when the model call fails.

    The long markdown around the inserted values is fixed text; it is given
    as `Templates`, and the calculator page as a parameter. */
module GeminiChat {
  import opened Common
  import opened Records
  import opened Keywords

  /** `getProjectType`: the first keyword group found in the lower-cased
      prompt decides. */
  function ProjectType(prompt: string): string {
    var lp := ToLower(prompt);
    if Contains(lp, "calculator") then "Advanced Calculator"
    else if Contains(lp, "todo") || Contains(lp, "task") then "Task Management System"
    else if Contains(lp, "game") then "Interactive Game"
    else if Contains(lp, "chat") then "Chat Application"
    else if Contains(lp, "dashboard") then "Analytics Dashboard"
    else if Contains(lp, "portfolio") then "Portfolio Website"
    else if Contains(lp, "ecommerce") || Contains(lp, "shop") then "E-commerce Platform"
    else "Web Application"
  }

  /** The order `getProjectType` tests its keywords in, as a table. */
  const ProjectTypeRules: seq<Rule> := [
    Rule(["calculator"], "Advanced Calculator"),
    Rule(["todo", "task"], "Task Management System"),
    Rule(["game"], "Interactive Game"),
    Rule(["chat"], "Chat Application"),
    Rule(["dashboard"], "Analytics Dashboard"),
    Rule(["portfolio"], "Portfolio Website"),
    Rule(["ecommerce", "shop"], "E-commerce Platform")
  ]

  /** The project type is the label of the first rule of the table whose
      keyword occurs in the lower-cased prompt, else `Web Application`. */
  lemma ProjectTypeByRules(prompt: string)
    ensures ProjectType(prompt) == FirstMatch(ProjectTypeRules, ToLower(prompt), "Web Application")
  {
    var lp := ToLower(prompt);
    var rules := ProjectTypeRules;
    var fallback := "Web Application";
    AnyOfOne(lp, "calculator");
    AnyOfTwo(lp, "todo", "task");
    AnyOfOne(lp, "game");
    AnyOfOne(lp, "chat");
    if Contains(lp, "calculator") {
      FirstMatchIs(rules, lp, fallback, 0);
    } else if Contains(lp, "todo") || Contains(lp, "task") {
      FirstMatchIs(rules, lp, fallback, 1);
    } else if Contains(lp, "game") {
      FirstMatchIs(rules, lp, fallback, 2);
    } else if Contains(lp, "chat") {
      FirstMatchIs(rules, lp, fallback, 3);
    } else {
      FirstMatchSkipped(rules, lp, fallback, 4);
      LaterProjectTypes(prompt);
    }
  }

  /** The last three rules of the table, once the first four are out. */
  lemma LaterProjectTypes(prompt: string)
    requires var lp := ToLower(prompt);
             !Contains(lp, "calculator") && !Contains(lp, "todo") && !Contains(lp, "task") &&
             !Contains(lp, "game") && !Contains(lp, "chat")
    ensures ProjectType(prompt) == FirstMatch(ProjectTypeRules[4..], ToLower(prompt), "Web Application")
  {
    var lp := ToLower(prompt);
    var rules := ProjectTypeRules[4..];
    assert rules == [Rule(["dashboard"], "Analytics Dashboard"), Rule(["portfolio"], "Portfolio Website"),
                     Rule(["ecommerce", "shop"], "E-commerce Platform")];
    var fallback := "Web Application";
    AnyOfOne(lp, "dashboard");
    AnyOfOne(lp, "portfolio");
    AnyOfTwo(lp, "ecommerce", "shop");
    if Contains(lp, "dashboard") {
      FirstMatchIs(rules, lp, fallback, 0);
    } else if Contains(lp, "portfolio") {
      FirstMatchIs(rules, lp, fallback, 1);
    } else if Contains(lp, "ecommerce") || Contains(lp, "shop") {
      FirstMatchIs(rules, lp, fallback, 2);
    } else {
      FirstMatchFallback(rules, lp, fallback);
    }
  }

  /** `getArchitectureType`: the first framework named decides. */
  function ArchitectureType(prompt: string): string {
    var lp := ToLower(prompt);
    if Contains(lp, "react") then "React Component-based SPA"
    else if Contains(lp, "vue") then "Vue.js Progressive Web App"
    else if Contains(lp, "angular") then "Angular Framework Application"
    else if Contains(lp, "node") then "Node.js Backend API"
    else if Contains(lp, "express") then "Express.js Web Server"
    else "Vanilla JavaScript Single-Page Application"
  }

  const ArchitectureRules: seq<Rule> := [
    Rule(["react"], "React Component-based SPA"),
    Rule(["vue"], "Vue.js Progressive Web App"),
    Rule(["angular"], "Angular Framework Application"),
    Rule(["node"], "Node.js Backend API"),
    Rule(["express"], "Express.js Web Server")
  ]

  /** The architecture is the label of the first framework rule that
      matches, else the vanilla single-page application. */
  lemma ArchitectureTypeByRules(prompt: string)
    ensures ArchitectureType(prompt) ==
            FirstMatch(ArchitectureRules, ToLower(prompt), "Vanilla JavaScript Single-Page Application")
  {
    var lp := ToLower(prompt);
    var rules := ArchitectureRules;
    var fallback := "Vanilla JavaScript Single-Page Application";
    AnyOfOne(lp, "react");
    AnyOfOne(lp, "vue");
    AnyOfOne(lp, "angular");
    AnyOfOne(lp, "node");
    AnyOfOne(lp, "express");
    if Contains(lp, "react") {
      FirstMatchIs(rules, lp, fallback, 0);
    } else if Contains(lp, "vue") {
      FirstMatchIs(rules, lp, fallback, 1);
    } else if Contains(lp, "angular") {
      FirstMatchIs(rules, lp, fallback, 2);
    } else if Contains(lp, "node") {
      FirstMatchIs(rules, lp, fallback, 3);
    } else if Contains(lp, "express") {
      FirstMatchIs(rules, lp, fallback, 4);
    } else {
      FirstMatchFallback(rules, lp, fallback);
    }
  }

  /** The `switch` of `getFileDescription`, by lower-cased extension. */
  const DescriptionTable: Record<string> := [
    ("html", "Main application structure with embedded functionality"),
    ("css", "Professional styling with responsive design"),
    ("js", "Interactive JavaScript with modern ES6+ features"),
    ("json", "Configuration and data management"),
    ("md", "Documentation and usage instructions")
  ]

  const DefaultDescription := "Application component"

  /** `getFileDescription`: the lower-cased text after the last `.` (the
      whole name when there is none) looked up in the table. */
  function FileDescription(fileName: string): (description: string)
    ensures var ext := ToLower(AfterLast(fileName, '.'));
            && (ext == "html" ==> description == "Main application structure with embedded functionality")
            && (ext == "css" ==> description == "Professional styling with responsive design")
            && (ext == "js" ==> description == "Interactive JavaScript with modern ES6+ features")
            && (ext == "json" ==> description == "Configuration and data management")
            && (ext == "md" ==> description == "Documentation and usage instructions")
            && (ext !in ["html", "css", "js", "json", "md"] ==> description == "Application component")
  {
    var ext := ToLower(AfterLast(fileName, '.'));
    DescriptionCases(ext);
    match Get(DescriptionTable, ext)
    case Some(d) => d
    case None => DefaultDescription
  }

  /** The table answers each of its five extensions and nothing else. */
  lemma DescriptionCases(ext: string)
    ensures ext == "html" ==> Get(DescriptionTable, ext) == Some("Main application structure with embedded functionality")
    ensures ext == "css" ==> Get(DescriptionTable, ext) == Some("Professional styling with responsive design")
    ensures ext == "js" ==> Get(DescriptionTable, ext) == Some("Interactive JavaScript with modern ES6+ features")
    ensures ext == "json" ==> Get(DescriptionTable, ext) == Some("Configuration and data management")
    ensures ext == "md" ==> Get(DescriptionTable, ext) == Some("Documentation and usage instructions")
    ensures ext !in ["html", "css", "js", "json", "md"] ==> Get(DescriptionTable, ext).None?
  {
    var t := DescriptionTable;
    assert Get(t, ext) == if t[0].0 == ext then Some(t[0].1) else Get(t[1..], ext);
    assert Get(t[1..], ext) == if t[1].0 == ext then Some(t[1].1) else Get(t[2..], ext);
    assert Get(t[2..], ext) == if t[2].0 == ext then Some(t[2].1) else Get(t[3..], ext);
    assert Get(t[3..], ext) == if t[3].0 == ext then Some(t[3].1) else Get(t[4..], ext);
    assert Get(t[4..], ext) == if t[4].0 == ext then Some(t[4].1) else Get(t[5..], ext);
    assert t[5..] == [];
  }

  /** Only the text after the last dot counts: any name ending in
      `.{ext}` is described as `ext` itself is. */
  lemma DescriptionByExtension(base: string, ext: string)
    requires '.' !in ext
    ensures FileDescription(base + "." + ext) == FileDescription(ext)
  {
    assert base + "." + ext == base + ['.'] + ext;
    AfterLastOf(base, '.', ext);
    AfterLastNone(ext, '.');
  }

  /** The lines `getFunctionalityList` pushes for each category. */
  const CalculatorFeatures := ["• Advanced mathematical calculations with scientific functions",
                               "• Keyboard input support and history tracking",
                               "• Error handling for invalid operations"]
  const TaskFeatures := ["• Task creation, editing, and deletion",
                         "• Priority levels and due date management",
                         "• Local storage persistence"]
  const GameFeatures := ["• Interactive gameplay with scoring system",
                         "• Smooth animations and visual effects",
                         "• Progressive difficulty levels"]
  const DefaultFeatures := ["• Complete core functionality as requested",
                            "• User-friendly interface with intuitive navigation",
                            "• Responsive design for all device sizes"]

  predicate AsksCalculator(lp: string) { Contains(lp, "calculator") }
  predicate AsksTasks(lp: string) { Contains(lp, "todo") || Contains(lp, "task") }
  predicate AsksGame(lp: string) { Contains(lp, "game") }

  /** The feature lines for a lower-cased prompt: the groups of every
      category it mentions, in order, or the default group. */
  function Features(lp: string): seq<string> {
    var matched := (if AsksCalculator(lp) then CalculatorFeatures else [])
                 + (if AsksTasks(lp) then TaskFeatures else [])
                 + (if AsksGame(lp) then GameFeatures else []);
    if matched == [] then DefaultFeatures else matched
  }

  /** `getFunctionalityList`: push the lines of each matching category,
      fall back to the default lines, join with newlines. */
  method FunctionalityList(prompt: string) returns (text: string)
    ensures text == Join(Features(ToLower(prompt)), "\n")
  {
    var lp := ToLower(prompt);
    var features: seq<string> := [];
    if Contains(lp, "calculator") {
      features := features + [CalculatorFeatures[0]];
      features := features + [CalculatorFeatures[1]];
      features := features + [CalculatorFeatures[2]];
    }
    if Contains(lp, "todo") || Contains(lp, "task") {
      features := features + [TaskFeatures[0]];
      features := features + [TaskFeatures[1]];
      features := features + [TaskFeatures[2]];
    }
    if Contains(lp, "game") {
      features := features + [GameFeatures[0]];
      features := features + [GameFeatures[1]];
      features := features + [GameFeatures[2]];
    }
    if |features| == 0 {
      features := features + [DefaultFeatures[0]];
      features := features + [DefaultFeatures[1]];
      features := features + [DefaultFeatures[2]];
    }
    assert features == Features(lp);
    text := Join(features, "\n");
  }

  function Count(b: bool): nat { if b then 1 else 0 }

  /** Three lines per matched category, and exactly three default lines
      when none matches. */
  lemma FeatureCount(lp: string)
    ensures var n := Count(AsksCalculator(lp)) + Count(AsksTasks(lp)) + Count(AsksGame(lp));
            |Features(lp)| == if n == 0 then 3 else 3 * n
    ensures Count(AsksCalculator(lp)) + Count(AsksTasks(lp)) + Count(AsksGame(lp)) == 0 ==> Features(lp) == DefaultFeatures
  {
  }

  /** The fixed text of the analysis and of the building section, around
      the values inserted into them. */
  datatype Templates = Templates(analysisHead: string, analysisMiddle: string, analysisTail: string,
                                 buildingHead: string, buildingMiddle: string, buildingTail: string)

  /** The analysis: the project type and the architecture inserted. */
  function Analysis(t: Templates, prompt: string): string {
    t.analysisHead + ProjectType(prompt) + t.analysisMiddle + ArchitectureType(prompt) + t.analysisTail
  }

  /** The building section: the project type and the feature list
      inserted. */
  function Building(t: Templates, prompt: string, features: string): string {
    t.buildingHead + ProjectType(prompt) + t.buildingMiddle + features + t.buildingTail
  }

  /** What both generators return. */
  datatype AnalysisReply = AnalysisReply(message: string, projectId: string, hasFiles: bool, filesCreated: seq<string>)

  /** `generateLocalResponseWithAnalysis`: a prompt mentioning `calc` gets
      the bare analysis and the calculator page as `index.html`; any other
      prompt gets the analysis and the building section, and no file. The
      flags of the reply are read off the files. */
  method LocalResponseWithAnalysis(prompt: string, projectId: string, t: Templates, calculatorPage: string)
    returns (r: AnalysisReply, files: Record<string>)
    ensures var lp := ToLower(prompt);
            && (Contains(lp, "calc") ==> files == [("index.html", calculatorPage)] && r.message == Analysis(t, prompt))
            && (!Contains(lp, "calc") ==>
                  files == [] && r.message == Analysis(t, prompt) + "\n\n" + Building(t, prompt, Join(Features(lp), "\n")))
    ensures r.projectId == projectId && r.filesCreated == Keys(files) && (r.hasFiles <==> files != [])
  {
    var lp := ToLower(prompt);
    var response := "";
    files := [];
    var analysis := Analysis(t, prompt);
    if Contains(lp, "calculator") || Contains(lp, "calc") {
      CalcCoversCalculator(lp);
      response := analysis;
      files := Set(files, "index.html", calculatorPage);
    } else {
      var features := FunctionalityList(prompt);
      response := analysis + "\n\n" + Building(t, prompt, features);
    }
    r := AnalysisReply(response, projectId, |Keys(files)| > 0, Keys(files));
  }

  /** `calc` is a prefix of `calculator`, so the `calculator` test adds
      nothing to the `calc` test. */
  lemma CalcCoversCalculator(lp: string)
    ensures Contains(lp, "calculator") || Contains(lp, "calc") <==> Contains(lp, "calc")
  {
    if Contains(lp, "calculator") {
      ContainsPrefixOf(lp, "calculator", 4);
      assert "calculator"[..4] == "calc";
    }
  }

  /** What the model's tool loop produced: its report and the files it
      created. */
  datatype Generated = Generated(report: string, createdFiles: seq<string>)

  /** `generateGeminiResponse`: the model's report when the call succeeds
      (`None` stands for a thrown error), otherwise the local analysis.
      Either way `hasFiles` says whether any file was created. */
  method GenerateGeminiResponse(prompt: string, projectId: string, outcome: Option<Generated>, t: Templates,
                                calculatorPage: string) returns (r: AnalysisReply)
    ensures r.projectId == projectId && (r.hasFiles <==> r.filesCreated != [])
    ensures outcome.Some? ==> r.message == outcome.value.report && r.filesCreated == outcome.value.createdFiles
    ensures outcome.None? ==> (r.filesCreated == ["index.html"] <==> Contains(ToLower(prompt), "calc"))
    ensures outcome.None? ==> (r.filesCreated == [] <==> !Contains(ToLower(prompt), "calc"))
  {
    match outcome {
      case Some(g) =>
        r := AnalysisReply(g.report, projectId, |g.createdFiles| > 0, g.createdFiles);
      case None =>
        var files;
        r, files := LocalResponseWithAnalysis(prompt, projectId, t, calculatorPage);
    }
  }
}
