/**
 * The intent classifier and the message pipeline of `AIService`
 * (lib/ai/huggingface.ts). The classifier is a fixed, ordered chain of five
 * word-pattern rules over the lower-cased message with `. , : ; ! ?` removed;
 * the first rule that matches decides the action, the entity and a canned
 * reply. `ProcessMessage` keeps the classification and replaces the reply by
 * the output of an external text generator.
 */
module Intent {
  import opened Text

  datatype Action = Create | Read | List | Unknown
  datatype Entity = Todo | User | Unknown

  /** `AIResponse` without its optional `data`. */
  datatype Response = Response(action: Action, entity: Entity, message: string)

  /** Which parser `processMessage` uses; `"chat"` is the default. */
  datatype Mode = TodoMode | ChatMode

  const DefaultMode := ChatMode

  const CreateReply := "I'll help you create a new todo. Please provide the title and description."
  const ListReply := "I'll show you all your todos."
  const EditBlockedReply := "Sorry, editing todos via AI chat is not allowed."
  const DeleteBlockedReply := "Sorry, deleting todos via AI chat is not allowed."
  const ReadReply := "I'll show you the specific todo details."
  const HelpReply := "I can help you manage todos. You can ask me to create or list todos."
  const RestrictedReply := "Todo actions are only available in the todo component."
  const ChatReply := "Let's chat! Feel free to share anything on your mind."
  const FallbackReply := "I understand your request."

  const CreateVerbs := ["create", "add", "new", "make"]
  const ListVerbs := ["list", "show", "get", "see", "display", "all"]
  const UpdateVerbs := ["update", "edit", "modify", "change"]
  const DeleteVerbs := ["delete", "remove", "erase", "discard"]
  const ReadVerbs := ["get", "show", "see", "display"]
  const Nouns := ["todo", "task", "reminder"]
  /** `(todo|task|reminder)s?\b`: the list rule also accepts the plural. */
  const NounsOrPlurals := Nouns + ["todos", "tasks", "reminders"]

  // ---------------------------------------------------------------------------
  // Normalisation: toLowerCase, then replace(/[.,:;!?]/g, "")
  // ---------------------------------------------------------------------------

  predicate IsStripped(c: char)
  {
    c == '.' || c == ',' || c == ':' || c == ';' || c == '!' || c == '?'
  }

  /** Removes every `. , : ; ! ?` and keeps the rest in order. */
  function StripPunctuation(s: string): (r: string)
    ensures |r| <= |s|
    ensures forall i :: 0 <= i < |r| ==> !IsStripped(r[i])
  {
    if s == [] then []
    else if IsStripped(s[0]) then StripPunctuation(s[1..])
    else [s[0]] + StripPunctuation(s[1..])
  }

  lemma {:induction false} StripAppend(a: string, b: string)
    ensures StripPunctuation(a + b) == StripPunctuation(a) + StripPunctuation(b)
  {
    if a == [] {
      assert a + b == b;
    } else {
      assert (a + b)[1..] == a[1..] + b;
      StripAppend(a[1..], b);
    }
  }

  /** The text the rules are matched against. */
  function Clean(message: string): string
  {
    StripPunctuation(Lower(message))
  }

  // ---------------------------------------------------------------------------
  // The word patterns  \b(A)\b.*\b(B)\b  of the rules
  // ---------------------------------------------------------------------------

  /** `\w` without the `u` flag. */
  predicate IsWordChar(c: char)
  {
    ('a' <= c <= 'z') || ('A' <= c <= 'Z') || ('0' <= c <= '9') || c == '_'
  }

  /** The characters `.` does not match. */
  predicate IsLineTerminator(c: char)
  {
    c == '\n' || c == '\r' || c == '\U{2028}' || c == '\U{2029}'
  }

  predicate WordCharAt(s: string, i: int)
  {
    0 <= i < |s| && IsWordChar(s[i])
  }

  /** `\b` holds between positions `i - 1` and `i`. */
  predicate Boundary(s: string, i: int)
  {
    WordCharAt(s, i - 1) != WordCharAt(s, i)
  }

  /** `\bw\b` matches at `i`. */
  predicate WordAt(s: string, i: nat, w: string)
  {
    i + |w| <= |s| && s[i..i + |w|] == w && Boundary(s, i) && Boundary(s, i + |w|)
  }

  /** `.*` can consume `s[i..j]`. */
  predicate SameLine(s: string, i: nat, j: nat)
  {
    i <= j <= |s| && forall k :: i <= k < j ==> !IsLineTerminator(s[k])
  }

  /**
   * What the regular expression `\b(a1|..)\b.*\b(b1|..)\b` matches: somewhere in
   * `s` a whole word of `first`, and later on the same line a whole word of `second`.
   */
  ghost predicate Matches(s: string, first: seq<string>, second: seq<string>)
  {
    exists i: nat, j: nat, x, y ::
      && 0 <= x < |first| && 0 <= y < |second|
      && WordAt(s, i, first[x]) && WordAt(s, j, second[y])
      && SameLine(s, i + |first[x]|, j)
  }

  predicate AnyWordAt(s: string, i: nat, words: seq<string>)
  {
    exists y | 0 <= y < |words| :: WordAt(s, i, words[y])
  }

  /** A word of `words` starts at `j` or later, with no line break from `j` up to it. */
  function WordAhead(s: string, j: nat, words: seq<string>): bool
    requires j <= |s|
    decreases |s| - j
  {
    AnyWordAt(s, j, words) || (j < |s| && !IsLineTerminator(s[j]) && WordAhead(s, j + 1, words))
  }

  /** Scans from `i` for a word of `first` followed by a word of `second`. */
  function ScanFrom(s: string, i: nat, first: seq<string>, second: seq<string>): bool
    requires i <= |s|
    decreases |s| - i
  {
    || (exists x | 0 <= x < |first| :: WordAt(s, i, first[x]) && WordAhead(s, i + |first[x]|, second))
    || (i < |s| && ScanFrom(s, i + 1, first, second))
  }

  /** The hand-coded matcher the rules use. */
  function Test(s: string, first: seq<string>, second: seq<string>): bool
  {
    ScanFrom(s, 0, first, second)
  }

  lemma {:induction false} WordAheadIff(s: string, j: nat, words: seq<string>)
    requires j <= |s|
    ensures WordAhead(s, j, words) <==>
            exists k: nat, y :: 0 <= y < |words| && WordAt(s, k, words[y]) && SameLine(s, j, k)
    decreases |s| - j
  {
    if AnyWordAt(s, j, words) {
      var y :| 0 <= y < |words| && WordAt(s, j, words[y]);
      assert SameLine(s, j, j);
    }
    if j < |s| {
      WordAheadIff(s, j + 1, words);
      if WordAhead(s, j + 1, words) && !IsLineTerminator(s[j]) {
        var k: nat, y :| 0 <= y < |words| && WordAt(s, k, words[y]) && SameLine(s, j + 1, k);
        assert SameLine(s, j, k);
      }
    }
    if exists k: nat, y :: 0 <= y < |words| && WordAt(s, k, words[y]) && SameLine(s, j, k) {
      var k: nat, y :| 0 <= y < |words| && WordAt(s, k, words[y]) && SameLine(s, j, k);
      if k > j {
        assert SameLine(s, j + 1, k);
      } else {
        assert AnyWordAt(s, j, words);
      }
    }
  }

  /** Word `first[x]` at `i`, then word `second[y]` at `j` on the same line. */
  predicate Hit(s: string, i: nat, j: nat, x: int, y: int, first: seq<string>, second: seq<string>)
  {
    && 0 <= x < |first| && 0 <= y < |second|
    && WordAt(s, i, first[x]) && WordAt(s, j, second[y])
    && SameLine(s, i + |first[x]|, j)
  }

  /** A match whose word of `first` starts at `i` or later. */
  ghost predicate MatchesFrom(s: string, i: nat, first: seq<string>, second: seq<string>)
  {
    exists i': nat, j: nat, x, y :: i <= i' && Hit(s, i', j, x, y, first, second)
  }

  /** A match whose word of `first` starts exactly at `i`. */
  ghost predicate MatchesAt(s: string, i: nat, first: seq<string>, second: seq<string>)
  {
    exists j: nat, x, y :: Hit(s, i, j, x, y, first, second)
  }

  /** The first disjunct of `ScanFrom` finds exactly the matches starting at `i`. */
  lemma ScanHeadIff(s: string, i: nat, first: seq<string>, second: seq<string>)
    requires i <= |s|
    ensures (exists x | 0 <= x < |first| :: WordAt(s, i, first[x]) && WordAhead(s, i + |first[x]|, second))
            <==> MatchesAt(s, i, first, second)
  {
    if exists x | 0 <= x < |first| :: WordAt(s, i, first[x]) && WordAhead(s, i + |first[x]|, second) {
      var x :| 0 <= x < |first| && WordAt(s, i, first[x]) && WordAhead(s, i + |first[x]|, second);
      AheadGivesHit(s, i, x, first, second);
    }
    if MatchesAt(s, i, first, second) {
      var j: nat, x, y :| Hit(s, i, j, x, y, first, second);
      HitGivesAhead(s, i, j, x, y, first, second);
    }
  }

  lemma AheadGivesHit(s: string, i: nat, x: nat, first: seq<string>, second: seq<string>)
    requires x < |first| && WordAt(s, i, first[x]) && WordAhead(s, i + |first[x]|, second)
    ensures MatchesAt(s, i, first, second)
  {
    WordAheadIff(s, i + |first[x]|, second);
    var j: nat, y :| 0 <= y < |second| && WordAt(s, j, second[y]) && SameLine(s, i + |first[x]|, j);
    assert Hit(s, i, j, x, y, first, second);
  }

  lemma HitGivesAhead(s: string, i: nat, j: nat, x: int, y: int, first: seq<string>, second: seq<string>)
    requires Hit(s, i, j, x, y, first, second)
    ensures exists x | 0 <= x < |first| :: WordAt(s, i, first[x]) && WordAhead(s, i + |first[x]|, second)
  {
    WordAheadIff(s, i + |first[x]|, second);
    assert WordAhead(s, i + |first[x]|, second);
  }

  /** A match from `i` starts at `i` or is a match from `i + 1`. */
  lemma MatchesFromStep(s: string, i: nat, first: seq<string>, second: seq<string>)
    requires i <= |s|
    ensures MatchesFrom(s, i, first, second) <==>
            MatchesAt(s, i, first, second) || (i < |s| && MatchesFrom(s, i + 1, first, second))
  {
    if MatchesFrom(s, i, first, second) {
      var i': nat, j: nat, x, y :| i <= i' && Hit(s, i', j, x, y, first, second);
      if i' > i {
        assert MatchesFrom(s, i + 1, first, second);
      } else {
        assert MatchesAt(s, i, first, second);
      }
    }
    if MatchesAt(s, i, first, second) {
      var j: nat, x, y :| Hit(s, i, j, x, y, first, second);
      assert MatchesFrom(s, i, first, second);
    }
  }

  lemma {:induction false} ScanFromIff(s: string, i: nat, first: seq<string>, second: seq<string>)
    requires i <= |s|
    ensures ScanFrom(s, i, first, second) <==> MatchesFrom(s, i, first, second)
    decreases |s| - i
  {
    if i < |s| {
      ScanFromIff(s, i + 1, first, second);
    }
    ScanHeadIff(s, i, first, second);
    MatchesFromStep(s, i, first, second);
  }

  /** The matcher decides the pattern exactly. */
  lemma TestIff(s: string, first: seq<string>, second: seq<string>)
    ensures Test(s, first, second) <==> Matches(s, first, second)
  {
    ScanFromIff(s, 0, first, second);
    if Matches(s, first, second) {
      var i: nat, j: nat, x, y :|
        && 0 <= x < |first| && 0 <= y < |second|
        && WordAt(s, i, first[x]) && WordAt(s, j, second[y])
        && SameLine(s, i + |first[x]|, j);
      assert Hit(s, i, j, x, y, first, second);
    }
    if MatchesFrom(s, 0, first, second) {
      var i: nat, j: nat, x, y :| Hit(s, i, j, x, y, first, second);
    }
  }

  // ---------------------------------------------------------------------------
  // parseUserIntentTodo, parseUserIntentWhatsOnYourMind
  // ---------------------------------------------------------------------------

  /** The five rules in their fixed order, then the fallback; first match wins. */
  function Classify(clean: string): Response
  {
    if Test(clean, CreateVerbs, Nouns) then Response(Create, Todo, CreateReply)
    else if Test(clean, ListVerbs, NounsOrPlurals) then Response(List, Todo, ListReply)
    else if Test(clean, UpdateVerbs, Nouns) then Response(Action.Unknown, Todo, EditBlockedReply)
    else if Test(clean, DeleteVerbs, Nouns) then Response(Action.Unknown, Todo, DeleteBlockedReply)
    else if Test(clean, Nouns, ReadVerbs) then Response(Read, Todo, ReadReply)
    else Response(Action.Unknown, Entity.Unknown, HelpReply)
  }

  /**
   * `parseUserIntentTodo(message, restrict)`. Never produces the `user` entity,
   * and only the fallback produces `unknown` as the entity.
   */
  function ParseUserIntentTodo(message: string, restrict: bool): (r: Response)
    ensures restrict ==> r == Response(Action.Unknown, Entity.Unknown, RestrictedReply)
    ensures r.entity != User
    ensures !restrict ==> (r.entity == Entity.Unknown <==> r.message == HelpReply)
  {
    if restrict then Response(Action.Unknown, Entity.Unknown, RestrictedReply)
    else Classify(Clean(message))
  }

  /** `parseUserIntentWhatsOnYourMind`: the same chat reply whatever the message. */
  function ParseUserIntentWhatsOnYourMind(message: string): (r: Response)
    ensures r.action == Action.Unknown && r.entity == Entity.Unknown && r.message == ChatReply
  {
    Response(Action.Unknown, Entity.Unknown, ChatReply)
  }

  // ---------------------------------------------------------------------------
  // generateResponse, processMessage
  // ---------------------------------------------------------------------------

  /** What the external text generator gives back: a text, or an error it threw. */
  datatype Generation = Generated(text: string) | Failed

  /** The hosted text-generation service, as a function of (prompt, model name). */
  type Generator = (string, string) -> Generation

  function ModelFor(mode: Mode): string
  {
    if mode == TodoMode then "gpt2" else "fmicrosoft/DialoGPT-small"
  }

  function Prompt(userMessage: string, reply: string): string
  {
    "User: " + userMessage + "\nAssistant: " + reply
  }

  /**
   * `generateResponse`: the generated text, or the fixed fallback when the
   * generator fails or produces nothing; never empty, never an error.
   */
  function GenerateResponse(prompt: string, model: string, generate: Generator): (r: string)
    ensures r != []
    ensures r == FallbackReply || generate(prompt, model) == Generated(r)
    ensures (generate(prompt, model).Failed? || generate(prompt, model).text == []) ==> r == FallbackReply
    ensures generate(prompt, model).Generated? && generate(prompt, model).text != [] ==> r == generate(prompt, model).text
  {
    match generate(prompt, model)
    case Generated(text) => if text != [] then text else FallbackReply
    case Failed => FallbackReply
  }

  /**
   * `processMessage(userMessage, mode)`: the classification of the chosen
   * parser with its reply replaced by the generator's paraphrase. In chat mode,
   * the default, the result is always unknown/unknown.
   */
  function ProcessMessage(userMessage: string, mode: Mode, generate: Generator): (r: Response)
    ensures mode == TodoMode ==>
              r.action == ParseUserIntentTodo(userMessage, false).action
              && r.entity == ParseUserIntentTodo(userMessage, false).entity
    ensures mode == ChatMode ==> r.action == Action.Unknown && r.entity == Entity.Unknown
    ensures r.message != []
    ensures mode == TodoMode ==>
              r.message == GenerateResponse(Prompt(userMessage, ParseUserIntentTodo(userMessage, false).message), "gpt2", generate)
    ensures mode == ChatMode ==>
              r.message == GenerateResponse(Prompt(userMessage, ChatReply), "fmicrosoft/DialoGPT-small", generate)
  {
    var intent := if mode == TodoMode then ParseUserIntentTodo(userMessage, false)
                  else ParseUserIntentWhatsOnYourMind(userMessage);
    var reply := GenerateResponse(Prompt(userMessage, intent.message), ModelFor(mode), generate);
    intent.(message := reply)
  }

  // ---------------------------------------------------------------------------
  // Properties of the classifier
  // ---------------------------------------------------------------------------

  /**
   * The rule chain, stated against the regular-expression semantics: each
   * outcome happens exactly when its rule matches and no earlier rule does.
   */
  lemma RulePriority(message: string)
    ensures var c, r := Clean(message), ParseUserIntentTodo(message, false);
      && (r == Response(Create, Todo, CreateReply) <==> Matches(c, CreateVerbs, Nouns))
      && (r == Response(List, Todo, ListReply) <==>
            !Matches(c, CreateVerbs, Nouns) && Matches(c, ListVerbs, NounsOrPlurals))
      && (r == Response(Action.Unknown, Todo, EditBlockedReply) <==>
            !Matches(c, CreateVerbs, Nouns) && !Matches(c, ListVerbs, NounsOrPlurals)
            && Matches(c, UpdateVerbs, Nouns))
      && (r == Response(Action.Unknown, Todo, DeleteBlockedReply) <==>
            !Matches(c, CreateVerbs, Nouns) && !Matches(c, ListVerbs, NounsOrPlurals)
            && !Matches(c, UpdateVerbs, Nouns) && Matches(c, DeleteVerbs, Nouns))
      && (r == Response(Read, Todo, ReadReply) <==>
            !Matches(c, CreateVerbs, Nouns) && !Matches(c, ListVerbs, NounsOrPlurals)
            && !Matches(c, UpdateVerbs, Nouns) && !Matches(c, DeleteVerbs, Nouns)
            && Matches(c, Nouns, ReadVerbs))
      && (r == Response(Action.Unknown, Entity.Unknown, HelpReply) <==>
            !Matches(c, CreateVerbs, Nouns) && !Matches(c, ListVerbs, NounsOrPlurals)
            && !Matches(c, UpdateVerbs, Nouns) && !Matches(c, DeleteVerbs, Nouns)
            && !Matches(c, Nouns, ReadVerbs))
  {
    var c := Clean(message);
    TestIff(c, CreateVerbs, Nouns);
    TestIff(c, ListVerbs, NounsOrPlurals);
    TestIff(c, UpdateVerbs, Nouns);
    TestIff(c, DeleteVerbs, Nouns);
    TestIff(c, Nouns, ReadVerbs);
  }

  /** A creation verb followed on the same line by a singular noun always means "create a todo". */
  lemma CreateRule(message: string)
    requires Matches(Clean(message), CreateVerbs, Nouns)
    ensures ParseUserIntentTodo(message, false) == Response(Create, Todo, CreateReply)
  {
    TestIff(Clean(message), CreateVerbs, Nouns);
  }

  /**
   * Update and delete requests are refused: a message with an update or delete
   * verb before a todo noun is never read, and if no earlier rule takes it the
   * result is the refusal for that verb, with the todo entity.
   */
  lemma BlockedRules(message: string)
    requires Matches(Clean(message), UpdateVerbs, Nouns) || Matches(Clean(message), DeleteVerbs, Nouns)
    ensures var r := ParseUserIntentTodo(message, false);
      && r.action != Read && r.entity == Todo
      && (r.action == Action.Unknown ==> r.message == EditBlockedReply || r.message == DeleteBlockedReply)
      && (r.message == DeleteBlockedReply ==> !Matches(Clean(message), UpdateVerbs, Nouns))
  {
    RulePriority(message);
  }

  /**
   * The normalisation erases `. , : ; ! ?`: inserting one anywhere leaves the
   * classification unchanged (even when it glues two words into one).
   */
  lemma CleanDropsPunctuation(a: string, p: char, b: string)
    requires IsStripped(p)
    ensures Clean(a + [p] + b) == Clean(a + b)
  {
    var la, lb := Lower(a), Lower(b);
    LowerAppend(a + [p], b);
    LowerAppend(a, [p]);
    LowerAppend(a, b);
    assert Lower([p]) == [p];
    StripAppend(la + [p], lb);
    StripAppend(la, [p]);
    assert StripPunctuation([p]) == [];
    StripAppend(la, lb);
  }

  lemma PunctuationInsensitive(message: string, k: nat, p: char)
    requires k <= |message| && IsStripped(p)
    ensures ParseUserIntentTodo(message[..k] + [p] + message[k..], false)
            == ParseUserIntentTodo(message, false)
  {
    assert message == message[..k] + message[k..];
    CleanDropsPunctuation(message[..k], p, message[k..]);
  }

  /** Classification ignores ASCII letter case. */
  lemma CaseInsensitive(message: string)
    ensures ParseUserIntentTodo(Lower(message), false) == ParseUserIntentTodo(message, false)
  {
    LowerIdempotent(message);
  }

  // ---------------------------------------------------------------------------
  // Messages made of plain words
  // ---------------------------------------------------------------------------

  /** A lower-case ASCII word. */
  predicate IsPlainWord(w: string)
  {
    |w| > 0 && forall k :: 0 <= k < |w| ==> 'a' <= w[k] <= 'z'
  }

  predicate AllPlainWords(ws: seq<string>)
  {
    forall k :: 0 <= k < |ws| ==> IsPlainWord(ws[k])
  }

  /** The words `ws` separated by single spaces. */
  function Sentence(ws: seq<string>): string
  {
    if |ws| == 0 then "" else if |ws| == 1 then ws[0] else ws[0] + " " + Sentence(ws[1..])
  }

  /** Where word `k` of `ws` starts in `Sentence(ws)`. */
  function Offset(ws: seq<string>, k: nat): nat
    requires k <= |ws|
  {
    if k == 0 then 0 else |ws[0]| + 1 + Offset(ws[1..], k - 1)
  }

  lemma {:induction false} SentenceChars(ws: seq<string>)
    requires AllPlainWords(ws)
    ensures forall i :: 0 <= i < |Sentence(ws)| ==> ('a' <= Sentence(ws)[i] <= 'z') || Sentence(ws)[i] == ' '
    ensures |ws| > 0 ==> |Sentence(ws)| >= |ws[0]| && Sentence(ws)[..|ws[0]|] == ws[0]
    ensures |ws| > 1 ==> |Sentence(ws)| > |ws[0]| && Sentence(ws)[|ws[0]|] == ' '
    ensures |ws| == 1 ==> Sentence(ws) == ws[0]
  {
    if |ws| > 1 {
      SentenceChars(ws[1..]);
      var s, rest := Sentence(ws), Sentence(ws[1..]);
      assert s == ws[0] + " " + rest;
      forall i | 0 <= i < |s| ensures ('a' <= s[i] <= 'z') || s[i] == ' ' {
        if i < |ws[0]| { assert s[i] == ws[0][i]; }
        else if i > |ws[0]| { assert s[i] == rest[i - |ws[0]| - 1]; }
      }
    }
  }

  lemma SentenceIsClean(ws: seq<string>)
    requires AllPlainWords(ws)
    ensures Clean(Sentence(ws)) == Sentence(ws)
  {
    SentenceChars(ws);
    var s := Sentence(ws);
    assert Lower(s) == s;
    StripKeepsPlainText(s);
  }

  lemma StripKeepsPlainText(s: string)
    requires forall i :: 0 <= i < |s| ==> !IsStripped(s[i])
    ensures StripPunctuation(s) == s
  {
    if s != [] {
      StripKeepsPlainText(s[1..]);
    }
  }

  /** Putting a non-word character and a prefix before `s` keeps the whole words of `s`. */
  lemma WordAtShift(p: string, s: string, i: nat, w: string)
    requires |p| > 0 && !IsWordChar(p[|p| - 1])
    ensures WordAt(p + s, |p| + i, w) <==> WordAt(s, i, w)
  {
    var t := p + s;
    assert WordCharAt(t, |p| + i - 1) == WordCharAt(s, i - 1) by {
      if 0 < i <= |s| { assert t[|p| + i - 1] == s[i - 1]; }
    }
    assert WordCharAt(t, |p| + i) == WordCharAt(s, i) by {
      if i < |s| { assert t[|p| + i] == s[i]; }
    }
    assert WordCharAt(t, |p| + i + |w|) == WordCharAt(s, i + |w|) by {
      if i + |w| < |s| { assert t[|p| + i + |w|] == s[i + |w|]; }
    }
    if i + |w| <= |s| {
      assert forall k :: i <= k < i + |w| ==> t[|p| + k] == s[k];
      assert t[|p| + i..|p| + i + |w|] == s[i..i + |w|];
    }
  }

  /** Every word of a sentence occurs in it as a whole word, at its offset. */
  lemma {:induction false} WordOfSentence(ws: seq<string>, k: nat)
    requires AllPlainWords(ws) && k < |ws|
    ensures Offset(ws, k) + |ws[k]| <= |Sentence(ws)|
    ensures WordAt(Sentence(ws), Offset(ws, k), ws[k])
  {
    SentenceChars(ws);
    var s := Sentence(ws);
    if k == 0 {
      assert s[0..|ws[0]|] == ws[0];
      assert WordCharAt(s, 0) && !WordCharAt(s, -1);
      assert WordCharAt(s, |ws[0]| - 1);
    } else {
      var p := ws[0] + " ";
      assert s == p + Sentence(ws[1..]);
      WordOfSentence(ws[1..], k - 1);
      WordAtShift(p, Sentence(ws[1..]), Offset(ws[1..], k - 1), ws[k]);
    }
  }

  /** A whole word of a sentence is one of its words. */
  lemma {:induction false} SentenceWordIsWord(ws: seq<string>, i: nat, w: string)
    requires AllPlainWords(ws) && IsPlainWord(w)
    requires WordAt(Sentence(ws), i, w)
    ensures exists k :: 0 <= k < |ws| && i == Offset(ws, k) && w == ws[k]
  {
    var s := Sentence(ws);
    var n := |ws[0]|;
    if i <= n {
      SentenceFirstWord(ws, i, w);
      assert Offset(ws, 0) == 0;
    } else {
      assert |ws| > 1;
      var p := ws[0] + " ";
      SentenceTail(ws);
      WordAtShift(p, Sentence(ws[1..]), i - |p|, w);
      SentenceWordIsWord(ws[1..], i - |p|, w);
      var k :| 0 <= k < |ws[1..]| && i - |p| == Offset(ws[1..], k) && w == ws[1..][k];
      assert Offset(ws, k + 1) == i;
    }
  }

  lemma SentenceFirstWord(ws: seq<string>, i: nat, w: string)
    requires AllPlainWords(ws) && IsPlainWord(w)
    requires WordAt(Sentence(ws), i, w) && i <= |ws[0]|
    ensures i == 0 && w == ws[0]
  {
    SentenceChars(ws);
    var s := Sentence(ws);
    assert |ws| > 1 ==> !IsWordChar(s[|ws[0]|]);
    WordAtPrefix(s, ws[0], i, w);
  }

  lemma SentenceTail(ws: seq<string>)
    requires |ws| > 1
    ensures Sentence(ws) == (ws[0] + " ") + Sentence(ws[1..])
    ensures |ws[0] + " "| == |ws[0]| + 1 && (ws[0] + " ")[|ws[0]|] == ' '
  {
  }

  /**
   * When `s` starts with the plain word `u`, followed by the end or a non-word
   * character, the only whole plain word starting within `u` is `u` itself.
   */
  lemma WordAtPrefix(s: string, u: string, i: nat, w: string)
    requires IsPlainWord(u) && IsPlainWord(w) && |u| <= |s| && s[..|u|] == u
    requires |u| == |s| || !IsWordChar(s[|u|])
    requires WordAt(s, i, w) && i <= |u|
    ensures i == 0 && w == u
  {
    assert forall j :: 0 <= j < |u| ==> WordCharAt(s, j) by {
      forall j | 0 <= j < |u| ensures WordCharAt(s, j) { assert s[j] == s[..|u|][j]; }
    }
    assert forall j :: i <= j < i + |w| ==> WordCharAt(s, j) by {
      forall j | i <= j < i + |w| ensures WordCharAt(s, j) { assert s[j] == s[i..i + |w|][j - i]; }
    }
    assert !WordCharAt(s, |u|);
    assert i == 0 && |w| == |u|;
    assert w == s[..|u|];
  }

  lemma {:induction false} OffsetGrows(ws: seq<string>, k1: nat, k2: nat)
    requires k1 <= k2 <= |ws|
    ensures Offset(ws, k2) >= Offset(ws, k1)
    ensures k1 < k2 ==> Offset(ws, k2) > Offset(ws, k1) + |ws[k1]|
  {
    if k1 > 0 {
      OffsetGrows(ws[1..], k1 - 1, k2 - 1);
    } else if k2 > 0 {
      OffsetGrows(ws[1..], 0, k2 - 1);
    }
  }

  lemma SentenceOneLine(ws: seq<string>, a: nat, b: nat)
    requires AllPlainWords(ws) && a <= b <= |Sentence(ws)|
    ensures SameLine(Sentence(ws), a, b)
  {
    SentenceChars(ws);
  }

  predicate AllPlain(words: seq<string>)
  {
    forall y :: 0 <= y < |words| ==> IsPlainWord(words[y])
  }

  /**
   * On a single line of plain words, a rule's pattern matches exactly when a
   * word of its first set comes before a word of its second set.
   */
  lemma SentenceMatches(ws: seq<string>, first: seq<string>, second: seq<string>)
    requires AllPlainWords(ws) && AllPlain(first) && AllPlain(second)
    ensures Matches(Sentence(ws), first, second) <==>
            exists k1, k2 :: 0 <= k1 < k2 < |ws| && ws[k1] in first && ws[k2] in second
  {
    if Matches(Sentence(ws), first, second) {
      SentenceMatchesOrdered(ws, first, second);
    }
    if exists k1, k2 :: 0 <= k1 < k2 < |ws| && ws[k1] in first && ws[k2] in second {
      var k1, k2 :| 0 <= k1 < k2 < |ws| && ws[k1] in first && ws[k2] in second;
      OrderedWordsMatch(ws, first, second, k1, k2);
    }
  }

  /** A match in a sentence is a pair of its words, the first before the second. */
  lemma SentenceMatchesOrdered(ws: seq<string>, first: seq<string>, second: seq<string>)
    requires AllPlainWords(ws) && AllPlain(first) && AllPlain(second)
    requires Matches(Sentence(ws), first, second)
    ensures exists k1, k2 :: 0 <= k1 < k2 < |ws| && ws[k1] in first && ws[k2] in second
  {
    var s := Sentence(ws);
    var i: nat, j: nat, x, y :|
      && 0 <= x < |first| && 0 <= y < |second|
      && WordAt(s, i, first[x]) && WordAt(s, j, second[y])
      && SameLine(s, i + |first[x]|, j);
    SentenceWordIsWord(ws, i, first[x]);
    SentenceWordIsWord(ws, j, second[y]);
    var k1 :| 0 <= k1 < |ws| && i == Offset(ws, k1) && first[x] == ws[k1];
    var k2 :| 0 <= k2 < |ws| && j == Offset(ws, k2) && second[y] == ws[k2];
    if k2 <= k1 {
      OffsetGrows(ws, k2, k1);
    }
    assert ws[k1] in first && ws[k2] in second;
  }

  /** Two words of a sentence, the first before the second, make a match. */
  lemma OrderedWordsMatch(ws: seq<string>, first: seq<string>, second: seq<string>, k1: nat, k2: nat)
    requires AllPlainWords(ws) && AllPlain(first) && AllPlain(second)
    requires k1 < k2 < |ws| && ws[k1] in first && ws[k2] in second
    ensures Matches(Sentence(ws), first, second)
  {
    var x :| 0 <= x < |first| && first[x] == ws[k1];
    var y :| 0 <= y < |second| && second[y] == ws[k2];
    WordOfSentence(ws, k1);
    WordOfSentence(ws, k2);
    OffsetGrows(ws, k1, k2);
    SentenceOneLine(ws, Offset(ws, k1) + |ws[k1]|, Offset(ws, k2));
  }

  // ---------------------------------------------------------------------------
  // Worked examples
  // ---------------------------------------------------------------------------

  lemma CreateVerbsPlain() ensures AllPlain(CreateVerbs) {}
  lemma ListVerbsPlain() ensures AllPlain(ListVerbs) {}
  lemma UpdateVerbsPlain() ensures AllPlain(UpdateVerbs) {}
  lemma DeleteVerbsPlain() ensures AllPlain(DeleteVerbs) {}
  lemma ReadVerbsPlain() ensures AllPlain(ReadVerbs) {}
  lemma NounsPlain() ensures AllPlain(Nouns) {}

  lemma NounsOrPluralsPlain()
    ensures AllPlain(NounsOrPlurals)
  {
    NounsPlain();
    assert AllPlain(["todos", "tasks", "reminders"]);
  }

  const ListAndDelete: seq<string> := ["list", "todos", "and", "delete", "todo"]

  lemma ListAndDeletePlain() ensures AllPlainWords(ListAndDelete) {}

  lemma ListAndDeleteNoCreateVerb()
    ensures forall k :: 0 <= k < |ListAndDelete| ==> ListAndDelete[k] !in CreateVerbs
  {
    assert "list" !in CreateVerbs;
    assert "todos" !in CreateVerbs;
    assert "and" !in CreateVerbs;
    assert "delete" !in CreateVerbs;
    assert "todo" !in CreateVerbs;
  }

  lemma ListAndDeleteHasNoCreateVerb()
    ensures !Matches(Sentence(ListAndDelete), CreateVerbs, Nouns)
  {
    ListAndDeletePlain();
    CreateVerbsPlain();
    NounsPlain();
    ListAndDeleteNoCreateVerb();
    SentenceMatches(ListAndDelete, CreateVerbs, Nouns);
  }

  lemma ListAndDeleteMatches()
    ensures Matches(Sentence(ListAndDelete), ListVerbs, NounsOrPlurals)
    ensures Matches(Sentence(ListAndDelete), DeleteVerbs, Nouns)
  {
    ListAndDeletePlain();
    ListVerbsPlain();
    NounsOrPluralsPlain();
    DeleteVerbsPlain();
    NounsPlain();
    SentenceMatches(ListAndDelete, ListVerbs, NounsOrPlurals);
    SentenceMatches(ListAndDelete, DeleteVerbs, Nouns);
    assert ListAndDelete[0] in ListVerbs && ListAndDelete[1] in NounsOrPlurals;
    assert ListAndDelete[3] in DeleteVerbs && ListAndDelete[4] in Nouns;
  }

  lemma ListAndDeleteSentence()
    ensures Sentence(ListAndDelete) == "list todos and delete todo"
  {
  }

  /**
   * "list todos and delete todo" also matches the delete rule, but the list
   * rule comes first: the result is list/todo, not a refusal.
   */
  lemma ListBeatsDelete()
    ensures Matches(Clean("list todos and delete todo"), DeleteVerbs, Nouns)
    ensures ParseUserIntentTodo("list todos and delete todo", false) == Response(List, Todo, ListReply)
  {
    var m := Sentence(ListAndDelete);
    ListAndDeleteSentence();
    ListAndDeletePlain();
    SentenceIsClean(ListAndDelete);
    ListAndDeleteHasNoCreateVerb();
    ListAndDeleteMatches();
    RulePriority(m);
  }

  const PluralDelete: seq<string> := ["delete", "my", "todos"]

  lemma PluralDeletePlain() ensures AllPlainWords(PluralDelete) {}

  lemma PluralDeleteNoNoun()
    ensures forall k :: 0 <= k < |PluralDelete| ==> PluralDelete[k] !in Nouns
  {
    assert "delete" !in Nouns;
    assert "my" !in Nouns;
    assert "todos" !in Nouns;
  }

  lemma PluralDeleteNoListVerb()
    ensures forall k :: 0 <= k < |PluralDelete| ==> PluralDelete[k] !in ListVerbs
  {
    assert "delete" !in ListVerbs;
    assert "my" !in ListVerbs;
    assert "todos" !in ListVerbs;
  }

  lemma PluralDeleteHasNoSingularNoun()
    ensures forall first :: AllPlain(first) ==> !Matches(Sentence(PluralDelete), first, Nouns)
    ensures !Matches(Sentence(PluralDelete), Nouns, ReadVerbs)
  {
    PluralDeletePlain();
    NounsPlain();
    ReadVerbsPlain();
    PluralDeleteNoNoun();
    forall first | AllPlain(first) ensures !Matches(Sentence(PluralDelete), first, Nouns) {
      SentenceMatches(PluralDelete, first, Nouns);
    }
    SentenceMatches(PluralDelete, Nouns, ReadVerbs);
  }

  lemma PluralDeleteHasNoListVerb()
    ensures !Matches(Sentence(PluralDelete), ListVerbs, NounsOrPlurals)
  {
    PluralDeletePlain();
    ListVerbsPlain();
    NounsOrPluralsPlain();
    PluralDeleteNoListVerb();
    SentenceMatches(PluralDelete, ListVerbs, NounsOrPlurals);
  }

  lemma PluralDeleteSentence()
    ensures Sentence(PluralDelete) == "delete my todos"
  {
  }

  /**
   * Only the list rule accepts a plural noun: "delete my todos" matches none
   * of the rules and gets the help reply.
   */
  lemma PluralFallsThrough()
    ensures ParseUserIntentTodo("delete my todos", false) == Response(Action.Unknown, Entity.Unknown, HelpReply)
  {
    var m := Sentence(PluralDelete);
    PluralDeleteSentence();
    PluralDeletePlain();
    SentenceIsClean(PluralDelete);
    CreateVerbsPlain();
    UpdateVerbsPlain();
    DeleteVerbsPlain();
    PluralDeleteHasNoSingularNoun();
    PluralDeleteHasNoListVerb();
    RulePriority(m);
  }
}
