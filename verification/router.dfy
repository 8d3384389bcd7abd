/**
 * The turn router of the mushroom expert chatbot (`llm_response` in MushroomExpert.py).
 *
 * A question is checked, in a fixed order, for safety terms, greetings and farewells; the
 * first group that matches short-circuits with a canned reply. Otherwise one of three prompt
 * templates is filled in and would be sent to the remote chat session. The remote service and
 * the image describer are outside the model: the description of an uploaded image is the
 * opaque string `mushroomInfo`.
 */
module Router {
  import opened Wrappers
  import opened Text

  // Canned replies.

  const WarningMessage: string :=
    "The Amanita Muscaria contains a neurotoxin that can cause delirium. "
    + "It's important to prepare it correctly to avoid adverse effects. "
    + "Are you familiar with the proper preparation methods?"
  const GreetingMessage: string :=
    "Hello! How can I help you today? What do you want to know about mushrooms?"
  const FarewellMessage: string :=
    "Goodbye! Have a great day! Comeback if you have more questions about mushrooms."

  // Prompt template fragments; the question and the image description go between them.

  const DirectLead: string :=
    "You are a world-renowned mycologist. Provide a detailed response to the following: "
  const DirectTail: string :=
    ". Remember to keep the conversation focused on mushrooms and guide the user towards related topics."
  const ImageLead: string :=
    "You are a world-renowned mycologist. Based on the image of the given mushroom with the following specs : "
  const QuestionLead: string := " please answer the following question: "
  const QuestionTail: string := ". Remember to keep the conversation focused on mushrooms."
  const SummaryTail: string :=
    ". Take this data and make a " + "detailed summary"
    + " of the mushroom. Remember to keep the conversation focused on mushrooms."

  predicate MentionsSafetyTerm(question: string) {
    Contains(question, "Amanita Muscaria") || Contains(question, "red mushroom")
  }

  predicate MentionsGreeting(question: string) {
    Contains(question, "hello") || Contains(question, "hey")
  }

  predicate MentionsFarewell(question: string) {
    Contains(question, "bye") || Contains(question, "goodbye")
  }

  /** Some keyword of the intent filter occurs in the question. */
  predicate MentionsKeyword(question: string) {
    MentionsSafetyTerm(question) || MentionsGreeting(question) || MentionsFarewell(question)
  }

  /** What the router decides for one turn: a fixed reply, or a prompt for the remote session. */
  datatype Outcome = Canned(msg: string) | Send(prompt: string)

  /** The router calls the image describer only when no keyword matched and an image was given. */
  predicate AnalysesImage(question: string, hasImage: bool) {
    !MentionsKeyword(question) && hasImage
  }

  /** The decision `llm_response` makes for a question, an image flag and the image's description. */
  function Route(question: string, hasImage: bool, mushroomInfo: string): (r: Outcome)
    ensures r.Canned? <==> MentionsKeyword(question)
    ensures r.Canned? ==> r.msg == WarningMessage || r.msg == GreetingMessage || r.msg == FarewellMessage
    ensures r.Send? && !hasImage ==> DirectLead <= r.prompt && Contains(r.prompt, question)
    ensures r.Send? && hasImage ==> ImageLead <= r.prompt && Contains(r.prompt, mushroomInfo)
  {
    if MentionsSafetyTerm(question) then Canned(WarningMessage)
    else if MentionsGreeting(question) then Canned(GreetingMessage)
    else if MentionsFarewell(question) then Canned(FarewellMessage)
    else if !hasImage then
      SplicedOccurs(DirectLead, question, DirectTail);
      Send(DirectLead + question + DirectTail)
    else if question != [] then
      var tail := QuestionLead + question + QuestionTail;
      SplicedOccurs(ImageLead, mushroomInfo, tail);
      Send(ImageLead + mushroomInfo + tail)
    else
      SplicedOccurs(ImageLead, mushroomInfo, SummaryTail);
      Send(ImageLead + mushroomInfo + SummaryTail)
  }

  // ---------------------------------------------------------------------------------------
  // Precedence of the intent checks

  /** A safety term wins over every other keyword, with or without an image. */
  lemma SafetyFirst(question: string, hasImage: bool, mushroomInfo: string)
    requires Contains(question, "Amanita Muscaria") || Contains(question, "red mushroom")
    ensures Route(question, hasImage, mushroomInfo) == Canned(WarningMessage)
  {
  }

  /** Without a safety term, a greeting wins, even when a farewell is also present. */
  lemma GreetingBeforeFarewell(question: string, hasImage: bool, mushroomInfo: string)
    requires !MentionsSafetyTerm(question)
    requires Contains(question, "hello") || Contains(question, "hey")
    ensures Route(question, hasImage, mushroomInfo) == Canned(GreetingMessage)
  {
  }

  /** "goodbye" contains "bye", so the "goodbye" test never decides anything. */
  lemma GoodbyeSubsumed(question: string)
    ensures MentionsFarewell(question) <==> Contains(question, "bye")
  {
    if Contains(question, "goodbye") {
      assert OccursAt("goodbye", "bye", 4);
      ContainsTransitive(question, "goodbye", "bye");
    }
  }

  /** Without a safety term or a greeting, "bye" anywhere yields the farewell. */
  lemma FarewellLast(question: string, hasImage: bool, mushroomInfo: string)
    requires !MentionsSafetyTerm(question) && !MentionsGreeting(question)
    ensures Route(question, hasImage, mushroomInfo) == Canned(FarewellMessage)
            <==> Contains(question, "bye")
  {
    GoodbyeSubsumed(question);
  }

  /**
   * Matching is unanchored and case-sensitive: "they" is a greeting, "Goodbye" still says
   * "bye", while "Hello" and "Bye" match nothing and are forwarded as questions.
   */
  lemma CaseSensitiveUnanchored(mushroomInfo: string)
    ensures Route("they", false, mushroomInfo) == Canned(GreetingMessage)
    ensures Route("Goodbye", false, mushroomInfo) == Canned(FarewellMessage)
    ensures Route("Hello", false, mushroomInfo) == Send(DirectLead + "Hello" + DirectTail)
    ensures Route("Bye", false, mushroomInfo) == Send(DirectLead + "Bye" + DirectTail)
  {
    assert OccursAt("they", "hey", 1);
    assert OccursAt("Goodbye", "bye", 4);
    assert !MentionsGreeting("Goodbye") by {
      forall i | 0 <= i <= 4 ensures !OccursAt("Goodbye", "hey", i) {
        assert "Goodbye"[i..i + 3][0] != "hey"[0];
      }
      forall i | 0 <= i <= 2 ensures !OccursAt("Goodbye", "hello", i) {
        assert "Goodbye"[i..i + 5][0] != "hello"[0];
      }
    }
    assert !MentionsKeyword("Hello") by {
      assert !OccursAt("Hello", "hello", 0) by { assert "Hello"[0] != "hello"[0]; }
      forall i | 0 <= i <= 2 ensures !OccursAt("Hello", "hey", i) {
        assert "Hello"[i..i + 3][0] != "hey"[0];
      }
      forall i | 0 <= i <= 2 ensures !OccursAt("Hello", "bye", i) {
        assert "Hello"[i..i + 3][0] != "bye"[0];
      }
    }
    assert !MentionsKeyword("Bye") by {
      assert !OccursAt("Bye", "bye", 0) by { assert "Bye"[0] != "bye"[0]; }
      assert !OccursAt("Bye", "hey", 0) by { assert "Bye"[0] != "hey"[0]; }
    }
  }

  // ---------------------------------------------------------------------------------------
  // Prompt templates

  /** No image and no keyword: prefix, the question verbatim, suffix; the description is unused. */
  lemma DirectPrompt(question: string, mushroomInfo: string)
    requires !MentionsKeyword(question)
    ensures Route(question, false, mushroomInfo) == Send(DirectLead + question + DirectTail)
    ensures OccursAt(Route(question, false, mushroomInfo).prompt, question, |DirectLead|)
  {
  }

  /** An image and a non-empty question: the description comes first, then the question. */
  lemma ImageQuestionPrompt(question: string, mushroomInfo: string)
    requires !MentionsKeyword(question) && question != []
    ensures Route(question, true, mushroomInfo)
         == Send(ImageLead + mushroomInfo + QuestionLead + question + QuestionTail)
    ensures var p := Route(question, true, mushroomInfo).prompt;
            && OccursAt(p, mushroomInfo, |ImageLead|)
            && p[|ImageLead| + |mushroomInfo|..][..|QuestionLead|] == QuestionLead
            && OccursAt(p, question, |ImageLead| + |mushroomInfo| + |QuestionLead|)
            && p[|ImageLead| + |mushroomInfo| + |QuestionLead| + |question|..] == QuestionTail
  {
    assert ImageLead + mushroomInfo + (QuestionLead + question + QuestionTail)
        == ImageLead + mushroomInfo + QuestionLead + question + QuestionTail;
  }

  /** An image and an empty question: the description followed by the summary request. */
  lemma ImageSummaryPrompt(mushroomInfo: string)
    ensures Route("", true, mushroomInfo).Send?
    ensures var p := Route("", true, mushroomInfo).prompt;
            && OccursAt(p, mushroomInfo, |ImageLead|)
            && p[|ImageLead| + |mushroomInfo|..] == SummaryTail
            && Contains(p, "detailed summary")
  {
    var p := ImageLead + mushroomInfo + SummaryTail;
    assert !MentionsKeyword("");
    SplicedOccurs(ImageLead, mushroomInfo, SummaryTail);
    SplicedOccurs(ImageLead + mushroomInfo, SummaryTail, "");
    assert p + "" == p;
    SummaryTailAsksForSummary();
    ContainsTransitive(p, SummaryTail, "detailed summary");
  }

  lemma SummaryTailAsksForSummary()
    ensures Contains(SummaryTail, "detailed summary")
  {
    SplicedOccurs(". Take this data and make a ", "detailed summary",
                  " of the mushroom. Remember to keep the conversation focused on mushrooms.");
  }

  // ---------------------------------------------------------------------------------------
  // The image describer

  /**
   * The description matters exactly when the router analyses the image: otherwise the
   * outcome is the same for every description, and when it does, the description is in
   * the prompt.
   */
  lemma DescriptionUsedOnlyWhenAnalysed(question: string, hasImage: bool, info1: string, info2: string)
    ensures !AnalysesImage(question, hasImage) ==> Route(question, hasImage, info1) == Route(question, hasImage, info2)
    ensures AnalysesImage(question, hasImage) ==>
              (Route(question, hasImage, info1).Send? && Contains(Route(question, hasImage, info1).prompt, info1))
  {
  }

  // ---------------------------------------------------------------------------------------
  // The intent filter as an explicit rule table

  /** Reply with `reply` when any of `keywords` occurs in the question. */
  datatype Rule = Rule(keywords: seq<string>, reply: string)

  /** The intent filter's rules in the order the router tries them. */
  const IntentRules: seq<Rule> := [
    Rule(["Amanita Muscaria", "red mushroom"], WarningMessage),
    Rule(["hello", "hey"], GreetingMessage),
    Rule(["bye", "goodbye"], FarewellMessage)
  ]

  predicate Fires(rule: Rule, question: string) {
    exists k | k in rule.keywords :: Contains(question, k)
  }

  /** The reply of the first rule that fires, if any. */
  function FirstReply(rules: seq<Rule>, question: string): (r: Option<string>)
    ensures r.Some? <==> exists i | 0 <= i < |rules| :: Fires(rules[i], question)
    ensures r.Some? ==> exists i | 0 <= i < |rules| :: rules[i].reply == r.value
  {
    if rules == [] then None
    else if Fires(rules[0], question) then Some(rules[0].reply)
    else
      var r := FirstReply(rules[1..], question);
      assert forall i | 0 <= i < |rules[1..]| :: rules[1..][i] == rules[i + 1];
      r
  }

  /** The earliest rule that fires decides, whatever later rules would say. */
  lemma {:induction false} FirstRuleWins(rules: seq<Rule>, question: string, i: int)
    requires 0 <= i < |rules| && Fires(rules[i], question)
    requires forall j | 0 <= j < i :: !Fires(rules[j], question)
    ensures FirstReply(rules, question) == Some(rules[i].reply)
  {
    if i > 0 {
      FirstRuleWins(rules[1..], question, i - 1);
    }
  }

  /** The router's canned branch is the rule table evaluated in order. */
  lemma RouteIsRuleTable(question: string, hasImage: bool, mushroomInfo: string)
    ensures Route(question, hasImage, mushroomInfo).Canned?
            <==> FirstReply(IntentRules, question).Some?
    ensures Route(question, hasImage, mushroomInfo).Canned?
            ==> Route(question, hasImage, mushroomInfo).msg == FirstReply(IntentRules, question).value
  {
    var rules := IntentRules;
    assert Fires(rules[0], question) <==> MentionsSafetyTerm(question) by {
      assert rules[0].keywords == ["Amanita Muscaria", "red mushroom"];
    }
    assert Fires(rules[1], question) <==> MentionsGreeting(question) by {
      assert rules[1].keywords == ["hello", "hey"];
    }
    assert Fires(rules[2], question) <==> MentionsFarewell(question) by {
      assert rules[2].keywords == ["bye", "goodbye"];
    }
    if MentionsSafetyTerm(question) {
      FirstRuleWins(rules, question, 0);
    } else if MentionsGreeting(question) {
      FirstRuleWins(rules, question, 1);
    } else if MentionsFarewell(question) {
      FirstRuleWins(rules, question, 2);
    }
  }
}
