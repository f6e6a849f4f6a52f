/** shared/server/chat-routes.ts, `generateLocalResponse`: a calculator, a
    todo app or a website page, each one HTML block between a sentence and
    a list of notes, or else one of six chat lines picked at random.

    The pages and the notes after them are fixed text; the model takes
    them as parameters and states what it needs of them (the page does not
    close its fence early, the notes hold no backtick). `Math.random()` is
    the parameter `draw`. */
module SharedChat {
  import opened Common
  import opened Fences
  import opened Extraction

  /** The four kinds of reply. */
  datatype Kind = Calculator | Todo | Website | Conversation

  /** The first keyword group found in the lower-cased prompt decides:
      calculator/calc, then todo/task, then website/web/page. `calc` and
      `web` start `calculator` and `website`, so those two words add
      nothing to their groups. */
  function KindOf(prompt: string): (k: Kind)
    ensures var lp := ToLower(prompt);
            && (k == Calculator <==> Contains(lp, "calc"))
            && (k == Todo <==> !Contains(lp, "calc") && (Contains(lp, "todo") || Contains(lp, "task")))
            && (k == Website <==> !Contains(lp, "calc") && !Contains(lp, "todo") && !Contains(lp, "task") &&
                                  (Contains(lp, "web") || Contains(lp, "page")))
  {
    var lp := ToLower(prompt);
    assert Contains(lp, "calculator") ==> Contains(lp, "calc") by {
      if Contains(lp, "calculator") {
        ContainsPrefixOf(lp, "calculator", 4);
        assert "calculator"[..4] == "calc";
      }
    }
    assert Contains(lp, "website") ==> Contains(lp, "web") by {
      if Contains(lp, "website") {
        ContainsPrefixOf(lp, "website", 3);
        assert "website"[..3] == "web";
      }
    }
    if Contains(lp, "calculator") || Contains(lp, "calc") then Calculator
    else if Contains(lp, "todo") || Contains(lp, "task") then Todo
    else if Contains(lp, "website") || Contains(lp, "web") || Contains(lp, "page") then Website
    else Conversation
  }

  /** The sentence before the page. */
  function Intro(k: Kind): string
    requires k != Conversation
  {
    match k
    case Calculator => "I'll create a clean " + "calculator for you! " + "Here's a simple one:\n\n"
    case Todo => "I'll create a simple " + "todo app " + "for you:\n\n"
    case Website => "I'll create a simple " + "website " + "for you:\n\n"
  }

  /** The sentence has no backtick. */
  lemma IntroPlain(k: Kind)
    requires k != Conversation
    ensures forall j :: 0 <= j < |Intro(k)| ==> Intro(k)[j] != '`'
  {
    match k
    case Calculator => PlainParts("I'll create a clean ", "calculator for you! ", "Here's a simple one:\n\n");
    case Todo => PlainParts("I'll create a simple ", "todo app ", "for you:\n\n");
    case Website => PlainParts("I'll create a simple ", "website ", "for you:\n\n");
  }

  /** The six chat lines. */
  const ChatResponses: seq<string> := [
    "Let's build something amazing! Describe your app idea and I'll create the complete code for you.",
    "Ready to code? Tell me what you want to build - calculator, todo list, game, or anything else!",
    "I can generate working code for any app you have in mind. What should we create today?",
    "Describe your project idea and I'll write clean, functional code that works immediately.",
    "What would you like to build? I'll create professional code with modern design and full functionality.",
    "Time to bring your idea to life! Just tell me what you want and I'll handle all the coding."
  ]

  /** `Math.floor(Math.random() * chatResponses.length)` for a draw in
      [0, 1): always an index of the list. */
  function ChatIndex(draw: real): (i: int)
    requires 0.0 <= draw < 1.0
    ensures 0 <= i < |ChatResponses|
    ensures i as real <= draw * 6.0 < i as real + 1.0
  {
    assert |ChatResponses| == 6;
    (draw * (|ChatResponses| as real)).Floor
  }

  /** Every index is reached by some draw: the draw i/6 picks line i. */
  lemma EveryLineReachable(i: int)
    requires 0 <= i < |ChatResponses|
    ensures var draw := i as real / 6.0; 0.0 <= draw < 1.0 && ChatIndex(draw) == i
  {
  }

  /** A code reply: the sentence, the page as one ```` ```html ```` block,
      and the notes. */
  function CodeReply(k: Kind, page: string, notes: string): string
    requires k != Conversation
  {
    Intro(k) + BlockText("html", None, page) + notes
  }

  /** `generateLocalResponse(prompt)`, with each kind's page and notes
      given. */
  function GenerateLocalResponse(prompt: string, draw: real, page: Kind -> string, notes: Kind -> string)
    : (reply: string)
    requires 0.0 <= draw < 1.0
    ensures KindOf(prompt) == Conversation ==> reply in ChatResponses
    ensures reply != []
  {
    var k := KindOf(prompt);
    if k == Conversation then ChatResponses[ChatIndex(draw)]
    else CodeReply(k, page(k), notes(k))
  }

  /** A block between backtick-free text is the only block. */
  lemma OneBlockBetween(pat: Pattern, pre: string, page: string, notes: string)
    requires StopsAtEnd(page) && '`' !in notes
    requires forall j :: 0 <= j < |pre| ==> pre[j] != '`'
    ensures Blocks(pat, pre + BlockText("html", None, page) + notes, 0) ==
            [Block(|pre|, |pre| + |BlockText("html", None, page)|, "html", None, page)]
  {
    assert "html" == ['h', 't', 'm', 'l'];
    assert GroupsFit(pat, "html", None);
    BlockAmid(pat, pre, "html", page, notes);
  }

  /** Each code reply holds exactly one fenced block, under either of the
      server's fence patterns: the ```` ```html ```` block around the page,
      right after the sentence. */
  lemma CodeReplyBlocks(pat: Pattern, k: Kind, page: string, notes: string)
    requires k != Conversation && StopsAtEnd(page) && '`' !in notes
    ensures var n := |Intro(k)|;
            Blocks(pat, CodeReply(k, page, notes), 0) ==
            [Block(n, n + |BlockText("html", None, page)|, "html", None, page)]
  {
    IntroPlain(k);
    OneBlockBetween(pat, Intro(k), page, notes);
  }

  /** So whatever the prompt, a code request gets a reply holding one
      block: its kind's page. */
  lemma ReplyBlocks(pat: Pattern, prompt: string, draw: real, page: Kind -> string, notes: Kind -> string)
    requires 0.0 <= draw < 1.0 && KindOf(prompt) != Conversation
    requires forall k: Kind :: StopsAtEnd(page(k)) && '`' !in notes(k)
    ensures var k := KindOf(prompt);
            var n := |Intro(k)|;
            Blocks(pat, GenerateLocalResponse(prompt, draw, page, notes), 0) ==
            [Block(n, n + |BlockText("html", None, page(k))|, "html", None, page(k))]
  {
    var k := KindOf(prompt);
    CodeReplyBlocks(pat, k, page(k), notes(k));
  }
}
