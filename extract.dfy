/**
 * Title and description extraction of `processAICommand`
 * (lib/services/todo-service.ts, lines 105-112): the two regular expressions
 *
 *   title:        /todo[:\s]+([^\n,]+?)(?=\s+description:|$)/i
 *   description:  /description[:\s]+([^\n,]+)/i
 *
 * are modelled by hand. `String.prototype.match` without the `g` flag returns
 * the first match a backtracking matcher finds: the leftmost start, then the
 * longest run of `[:\s]+` (greedy, backtracked one character at a time), then
 * the shortest group for the lazy `+?`, or the longest for the greedy `+`.
 * Each regex is specified by a predicate saying which `(start, run, end)`
 * triples match at all, and a ghost predicate picking the one the matcher
 * reports; the executable search is proved to find exactly that one.
 * Without the `u` flag, `i` compares ASCII letters case-insensitively and no
 * other character equals an ASCII letter, which is what `CiAt` checks.
 */
module Extract {
  import opened Wrappers
  import opened Text

  const UntitledTodo := "Untitled Todo"

  /** `[:\s]` */
  predicate IsColonOrSpace(c: char)
  {
    c == ':' || IsSpace(c)
  }

  /** `[^\n,]` */
  predicate InGroup(c: char)
  {
    c != '\n' && c != ','
  }

  /** Every character of `s[lo..hi]` satisfies `p`. */
  predicate Span(s: string, lo: nat, hi: nat, p: char -> bool)
    requires lo <= hi <= |s|
  {
    forall i :: lo <= i < hi ==> p(s[i])
  }

  /** Length of the longest run of characters satisfying `p` from `i` on. */
  function Run(s: string, i: nat, p: char -> bool): (n: nat)
    requires i <= |s|
    ensures i + n <= |s| && Span(s, i, i + n, p)
    ensures i + n == |s| || !p(s[i + n])
    decreases |s| - i
  {
    if i < |s| && p(s[i]) then 1 + Run(s, i + 1, p) else 0
  }

  /** Trimming a slice keeps every character the slice had. */
  lemma SpanTrim(s: string, lo: nat, hi: nat, p: char -> bool)
    requires lo <= hi <= |s| && Span(s, lo, hi, p)
    ensures var t := Trim(s[lo..hi]); Span(t, 0, |t|, p)
  {
    var u := s[lo..hi];
    assert Span(u, 0, |u|, p) by {
      forall i | 0 <= i < |u| ensures p(u[i]) { assert u[i] == s[lo + i]; }
    }
    SpanTrimmed(u, p);
  }

  lemma SpanTrimmed(u: string, p: char -> bool)
    requires Span(u, 0, |u|, p)
    ensures var t := Trim(u); Span(t, 0, |t|, p)
  {
    var t := Trim(u);
    var a := SpaceRun(u, 0);
    forall i | 0 <= i < |t| ensures p(t[i]) {
      assert t[i] == u[a + i];
    }
  }

  /** `match[1].trim()`: the captured group without its surrounding white space. */
  function Group(s: string, lo: nat, hi: nat): (t: string)
    requires lo <= hi <= |s| && Span(s, lo, hi, InGroup)
    ensures Span(t, 0, |t|, InGroup)
    ensures t == [] || (!IsSpace(t[0]) && !IsSpace(t[|t| - 1]))
  {
    SpanTrim(s, lo, hi, InGroup);
    Trim(s[lo..hi])
  }

  // ---------------------------------------------------------------------------
  // The title
  // ---------------------------------------------------------------------------

  /** The lookahead `(?=\s+description:|$)` succeeds at `e`. */
  predicate DescriptionAhead(s: string, e: nat)
    requires e <= |s|
  {
    e == |s| || (var m := Run(s, e, IsSpace); m >= 1 && CiAt(s, e + m, "description:"))
  }

  /**
   * The lookahead as the regex reads it: the end of the input, or some
   * non-empty white space followed by "description:" in any case.
   */
  lemma DescriptionAheadIff(s: string, e: nat)
    requires e <= |s|
    ensures DescriptionAhead(s, e) <==>
            e == |s| || exists j :: e < j <= |s| && Span(s, e, j, IsSpace) && CiAt(s, j, "description:")
  {
    if e < |s| && exists j :: e < j <= |s| && Span(s, e, j, IsSpace) && CiAt(s, j, "description:") {
      var j :| e < j <= |s| && Span(s, e, j, IsSpace) && CiAt(s, j, "description:");
      SpaceThenDescription(s, e, j);
    }
    if DescriptionAhead(s, e) && e < |s| {
      DescriptionAfterSpace(s, e);
    }
  }

  lemma DescriptionAfterSpace(s: string, e: nat)
    requires e < |s| && DescriptionAhead(s, e)
    ensures exists j :: e < j <= |s| && Span(s, e, j, IsSpace) && CiAt(s, j, "description:")
  {
    var n := Run(s, e, IsSpace);
    assert Span(s, e, e + n, IsSpace) && CiAt(s, e + n, "description:");
  }

  lemma SpaceThenDescription(s: string, e: nat, j: nat)
    requires e < j <= |s| && Span(s, e, j, IsSpace) && CiAt(s, j, "description:")
    ensures DescriptionAhead(s, e)
  {
    DescriptionNotSpace(s, j);
    RunUpTo(s, e, j, IsSpace);
  }

  /** "description:" starts with a letter, which is not white space. */
  lemma DescriptionNotSpace(s: string, j: nat)
    requires CiAt(s, j, "description:")
    ensures j < |s| && !IsSpace(s[j])
  {
    assert LowerChar(s[j + 0]) == "description:"[0];
  }

  /** A run of `p` that ends where `p` first fails is the longest run. */
  lemma RunUpTo(s: string, i: nat, j: nat, p: char -> bool)
    requires i <= j < |s| && Span(s, i, j, p) && !p(s[j])
    ensures Run(s, i, p) == j - i
  {
  }

  /**
   * `todo` in any case at `p`, `[:\s]` characters at `p+4 .. p+4+k`, the
   * group `[^\n,]+` at `p+4+k .. e` and the lookahead at `e`: the title regex
   * can match this way.
   */
  predicate TitleAt(s: string, p: nat, k: nat, e: nat)
  {
    && CiAt(s, p, "todo")
    && 1 <= k && p + 4 + k < e <= |s|
    && Span(s, p + 4, p + 4 + k, IsColonOrSpace)
    && Span(s, p + 4 + k, e, InGroup)
    && DescriptionAhead(s, e)
  }

  /**
   * The match the backtracking matcher reports among the starts from `from`
   * on: the leftmost start, then the longest `[:\s]+`, then the shortest lazy
   * group.
   */
  ghost predicate FirstTitleFrom(s: string, from: nat, p: nat, k: nat, e: nat)
  {
    && from <= p
    && TitleAt(s, p, k, e)
    && (forall q: nat, k': nat, e': nat :: from <= q < p ==> !TitleAt(s, q, k', e'))
    && (forall k': nat, e': nat :: k < k' ==> !TitleAt(s, p, k', e'))
    && (forall e': nat :: e' < e ==> !TitleAt(s, p, k, e'))
  }

  ghost predicate FirstTitle(s: string, p: nat, k: nat, e: nat)
  {
    FirstTitleFrom(s, 0, p, k, e)
  }

  /** The matcher reports at most one match. */
  lemma FirstTitleUnique(s: string, p: nat, k: nat, e: nat, p': nat, k': nat, e': nat)
    requires FirstTitle(s, p, k, e) && FirstTitle(s, p', k', e')
    ensures p == p' && k == k' && e == e'
  {
  }

  /** The lazy group `[^\n,]+?` from `g`, tried with ends `e`, `e+1`, ... */
  function LazyEnd(s: string, g: nat, e: nat): (r: Option<nat>)
    requires g < e <= |s| && Span(s, g, e - 1, InGroup)
    ensures r.Some? ==> e <= r.value <= |s| && Span(s, g, r.value, InGroup)
                        && DescriptionAhead(s, r.value)
    ensures r.Some? ==> forall y: nat :: e <= y < r.value ==> !DescriptionAhead(s, y)
    ensures r.None? ==> forall y: nat :: e <= y <= |s| ==> !(Span(s, g, y, InGroup) && DescriptionAhead(s, y))
    decreases |s| - e
  {
    if !InGroup(s[e - 1]) then
      NoGroupPast(s, g, e);
      None
    else if DescriptionAhead(s, e) then Some(e)
    else
      assert Span(s, g, e, InGroup);
      LazyEnd(s, g, e + 1)
  }

  /** A character outside `[^\n,]` ends every group that would reach past it. */
  lemma NoGroupPast(s: string, g: nat, e: nat)
    requires g < e <= |s| && !InGroup(s[e - 1])
    ensures forall y: nat :: e <= y <= |s| ==> !Span(s, g, y, InGroup)
  {
  }

  /** Backtracking over `[:\s]+` at the title start `p`: runs of `k`, `k-1`, ..., 1. */
  function TitleRuns(s: string, p: nat, k: nat): (r: Option<(nat, nat)>)
    requires CiAt(s, p, "todo") && p + 4 + k <= |s| && Span(s, p + 4, p + 4 + k, IsColonOrSpace)
    ensures r.Some? ==> r.value.0 <= k && TitleAt(s, p, r.value.0, r.value.1)
    ensures r.Some? ==> forall k': nat, e': nat :: r.value.0 < k' <= k ==> !TitleAt(s, p, k', e')
    ensures r.Some? ==> forall e': nat :: e' < r.value.1 ==> !TitleAt(s, p, r.value.0, e')
    ensures r.None? ==> forall k': nat, e': nat :: k' <= k ==> !TitleAt(s, p, k', e')
  {
    if k == 0 then None
    else
      var g := p + 4 + k;
      var r := if g < |s| then LazyEnd(s, g, g + 1) else None;
      if r.Some? then Some((k, r.value)) else TitleRuns(s, p, k - 1)
  }

  /** No title match at `p` uses more `[:\s]` characters than there are. */
  lemma TitleRunBound(s: string, p: nat, k: nat, e: nat)
    requires p + 4 <= |s| && TitleAt(s, p, k, e)
    ensures k <= Run(s, p + 4, IsColonOrSpace)
  {
  }

  /** The title search, trying the starts `p`, `p+1`, ... */
  function TitleFrom(s: string, p: nat): (r: Option<(nat, nat, nat)>)
    requires p <= |s|
    ensures r.Some? ==> FirstTitleFrom(s, p, r.value.0, r.value.1, r.value.2)
    ensures r.None? ==> forall q: nat, k: nat, e: nat :: p <= q ==> !TitleAt(s, q, k, e)
    decreases |s| - p
  {
    if p + 4 > |s| then None
    else if !CiAt(s, p, "todo") then
      var r := TitleFrom(s, p + 1);
      NoTitleAtStart(s, p, r);
      r
    else
      var r := TitleRuns(s, p, Run(s, p + 4, IsColonOrSpace));
      TitleRunsComplete(s, p);
      if r.Some? then Some((p, r.value.0, r.value.1))
      else
        var r' := TitleFrom(s, p + 1);
        NoTitleAtStart(s, p, r');
        r'
  }

  /** A start where no title match begins can be skipped. */
  lemma NoTitleAtStart(s: string, p: nat, r: Option<(nat, nat, nat)>)
    requires forall k: nat, e: nat :: !TitleAt(s, p, k, e)
    requires r.Some? ==> FirstTitleFrom(s, p + 1, r.value.0, r.value.1, r.value.2)
    requires r.None? ==> forall q: nat, k: nat, e: nat :: p + 1 <= q ==> !TitleAt(s, q, k, e)
    ensures r.Some? ==> FirstTitleFrom(s, p, r.value.0, r.value.1, r.value.2)
    ensures r.None? ==> forall q: nat, k: nat, e: nat :: p <= q ==> !TitleAt(s, q, k, e)
  {
  }

  /** Starting the backtracking from the longest run misses no match at `p`. */
  lemma TitleRunsComplete(s: string, p: nat)
    requires p + 4 <= |s| && CiAt(s, p, "todo")
    ensures var r := TitleRuns(s, p, Run(s, p + 4, IsColonOrSpace));
      && (r.Some? ==> forall k': nat, e': nat :: r.value.0 < k' ==> !TitleAt(s, p, k', e'))
      && (r.None? ==> forall k: nat, e: nat :: !TitleAt(s, p, k, e))
  {
    forall k: nat, e: nat | TitleAt(s, p, k, e) ensures k <= Run(s, p + 4, IsColonOrSpace) {
      TitleRunBound(s, p, k, e);
    }
  }

  /** The title match of the message, if any. */
  function TitleMatch(s: string): (r: Option<(nat, nat, nat)>)
    ensures r.Some? ==> FirstTitle(s, r.value.0, r.value.1, r.value.2)
    ensures r.None? ==> forall p: nat, k: nat, e: nat :: !TitleAt(s, p, k, e)
  {
    TitleFrom(s, 0)
  }

  /**
   * `titleMatch ? titleMatch[1].trim() : "Untitled Todo"`: the title is
   * either the placeholder or trimmed text holding no comma and no newline.
   */
  function ExtractTitle(message: string): (title: string)
    ensures title == UntitledTodo || Span(title, 0, |title|, InGroup)
    ensures title == UntitledTodo || title == [] || (!IsSpace(title[0]) && !IsSpace(title[|title| - 1]))
  {
    match TitleMatch(message)
    case Some((p, k, e)) => Group(message, p + 4 + k, e)
    case None => UntitledTodo
  }

  /** The search finds the match the regex reports. */
  lemma TitleMatchIsFirst(s: string, p: nat, k: nat, e: nat)
    requires FirstTitle(s, p, k, e)
    ensures TitleMatch(s) == Some((p, k, e))
  {
    var r := TitleMatch(s);
    FirstTitleUnique(s, p, k, e, r.value.0, r.value.1, r.value.2);
  }

  /** The title is the trimmed group of the match the regex reports. */
  lemma TitleOfFirstMatch(s: string, p: nat, k: nat, e: nat)
    requires FirstTitle(s, p, k, e)
    ensures ExtractTitle(s) == Group(s, p + 4 + k, e)
  {
    TitleMatchIsFirst(s, p, k, e);
    TitleOfMatch(s, p, k, e);
  }

  lemma TitleOfMatch(s: string, p: nat, k: nat, e: nat)
    requires p + 4 + k <= e <= |s| && Span(s, p + 4 + k, e, InGroup)
    requires TitleMatch(s) == Some((p, k, e))
    ensures ExtractTitle(s) == Group(s, p + 4 + k, e)
  {
  }

  /** Without any match the title is the placeholder. */
  lemma UntitledWithoutMatch(s: string)
    requires forall p: nat, k: nat, e: nat :: !TitleAt(s, p, k, e)
    ensures ExtractTitle(s) == UntitledTodo
  {
  }

  /**
   * With no "description:" anywhere the group has to reach the end of the
   * message; when a comma follows every "todo", it never can, and the title
   * is the placeholder.
   */
  lemma {:induction false} CommaWithoutDescription(s: string)
    requires forall i: nat :: !CiAt(s, i, "description:")
    requires forall p: nat :: CiAt(s, p, "todo") ==> exists q :: p + 4 <= q < |s| && s[q] == ','
    ensures ExtractTitle(s) == UntitledTodo
  {
    assert forall p: nat, k: nat, e: nat :: !TitleAt(s, p, k, e);
    UntitledWithoutMatch(s);
  }

  // ---------------------------------------------------------------------------
  // The description
  // ---------------------------------------------------------------------------

  /**
   * `description` in any case at `p`, `[:\s]` characters at
   * `p+11 .. p+11+k` and the group `[^\n,]+` at `p+11+k .. e`.
   */
  predicate DescriptionAt(s: string, p: nat, k: nat, e: nat)
  {
    && CiAt(s, p, "description")
    && 1 <= k && p + 11 + k < e <= |s|
    && Span(s, p + 11, p + 11 + k, IsColonOrSpace)
    && Span(s, p + 11 + k, e, InGroup)
  }

  /**
   * The match reported among the starts from `from` on: the leftmost start,
   * then the longest `[:\s]+`, then the longest (greedy) group.
   */
  ghost predicate FirstDescriptionFrom(s: string, from: nat, p: nat, k: nat, e: nat)
  {
    && from <= p
    && DescriptionAt(s, p, k, e)
    && (forall q: nat, k': nat, e': nat :: from <= q < p ==> !DescriptionAt(s, q, k', e'))
    && (forall k': nat, e': nat :: k < k' ==> !DescriptionAt(s, p, k', e'))
    && (forall e': nat :: e < e' ==> !DescriptionAt(s, p, k, e'))
  }

  ghost predicate FirstDescription(s: string, p: nat, k: nat, e: nat)
  {
    FirstDescriptionFrom(s, 0, p, k, e)
  }

  lemma FirstDescriptionUnique(s: string, p: nat, k: nat, e: nat, p': nat, k': nat, e': nat)
    requires FirstDescription(s, p, k, e) && FirstDescription(s, p', k', e')
    ensures p == p' && k == k' && e == e'
  {
  }

  /** Backtracking over `[:\s]+` at the description start `p`. */
  function DescriptionRuns(s: string, p: nat, k: nat): (r: Option<(nat, nat)>)
    requires CiAt(s, p, "description") && p + 11 + k <= |s|
    requires Span(s, p + 11, p + 11 + k, IsColonOrSpace)
    ensures r.Some? ==> r.value.0 <= k && DescriptionAt(s, p, r.value.0, r.value.1)
    ensures r.Some? ==> forall k': nat, e': nat :: r.value.0 < k' <= k ==> !DescriptionAt(s, p, k', e')
    ensures r.Some? ==> forall e': nat :: r.value.1 < e' ==> !DescriptionAt(s, p, r.value.0, e')
    ensures r.None? ==> forall k': nat, e': nat :: k' <= k ==> !DescriptionAt(s, p, k', e')
  {
    if k == 0 then None
    else
      var g := p + 11 + k;
      if g < |s| && InGroup(s[g]) then
        var e := g + Run(s, g, InGroup);
        Some((k, e))
      else
        DescriptionRuns(s, p, k - 1)
  }

  lemma DescriptionRunBound(s: string, p: nat, k: nat, e: nat)
    requires p + 11 <= |s| && DescriptionAt(s, p, k, e)
    ensures k <= Run(s, p + 11, IsColonOrSpace)
  {
  }

  /** The description search, trying the starts `p`, `p+1`, ... */
  function DescriptionFrom(s: string, p: nat): (r: Option<(nat, nat, nat)>)
    requires p <= |s|
    ensures r.Some? ==> FirstDescriptionFrom(s, p, r.value.0, r.value.1, r.value.2)
    ensures r.None? ==> forall q: nat, k: nat, e: nat :: p <= q ==> !DescriptionAt(s, q, k, e)
    decreases |s| - p
  {
    if p + 11 > |s| then None
    else if !CiAt(s, p, "description") then DescriptionFrom(s, p + 1)
    else
      var r := DescriptionRuns(s, p, Run(s, p + 11, IsColonOrSpace));
      if r.Some? then
        assert forall k: nat, e: nat :: DescriptionAt(s, p, k, e) ==> k <= Run(s, p + 11, IsColonOrSpace) by {
          forall k, e | DescriptionAt(s, p, k, e) { DescriptionRunBound(s, p, k, e); }
        }
        Some((p, r.value.0, r.value.1))
      else
        assert forall k: nat, e: nat :: !DescriptionAt(s, p, k, e) by {
          forall k, e | DescriptionAt(s, p, k, e) ensures false { DescriptionRunBound(s, p, k, e); }
        }
        DescriptionFrom(s, p + 1)
  }

  function DescriptionMatch(s: string): (r: Option<(nat, nat, nat)>)
    ensures r.Some? ==> FirstDescription(s, r.value.0, r.value.1, r.value.2)
    ensures r.None? ==> forall p: nat, k: nat, e: nat :: !DescriptionAt(s, p, k, e)
  {
    DescriptionFrom(s, 0)
  }

  /**
   * `descriptionMatch ? descriptionMatch[1].trim() : undefined`: trimmed
   * text holding no comma and no newline, or nothing.
   */
  function ExtractDescription(message: string): (d: Option<string>)
    ensures d.Some? ==> Span(d.value, 0, |d.value|, InGroup)
    ensures d.Some? ==> d.value == [] || (!IsSpace(d.value[0]) && !IsSpace(d.value[|d.value| - 1]))
    ensures d.None? <==> forall p: nat, k: nat, e: nat :: !DescriptionAt(message, p, k, e)
  {
    match DescriptionMatch(message)
    case Some((p, k, e)) => Some(Group(message, p + 11 + k, e))
    case None => None
  }

  lemma DescriptionMatchIsFirst(s: string, p: nat, k: nat, e: nat)
    requires FirstDescription(s, p, k, e)
    ensures DescriptionMatch(s) == Some((p, k, e))
  {
    var r := DescriptionMatch(s);
    FirstDescriptionUnique(s, p, k, e, r.value.0, r.value.1, r.value.2);
  }

  /** The description is the trimmed group of the match the regex reports. */
  lemma DescriptionOfFirstMatch(s: string, p: nat, k: nat, e: nat)
    requires FirstDescription(s, p, k, e)
    ensures ExtractDescription(s) == Some(Group(s, p + 11 + k, e))
  {
    DescriptionMatchIsFirst(s, p, k, e);
    DescriptionOfMatch(s, p, k, e);
  }

  lemma DescriptionOfMatch(s: string, p: nat, k: nat, e: nat)
    requires p + 11 + k <= e <= |s| && Span(s, p + 11 + k, e, InGroup)
    requires DescriptionMatch(s) == Some((p, k, e))
    ensures ExtractDescription(s) == Some(Group(s, p + 11 + k, e))
  {
  }

  // ---------------------------------------------------------------------------
  // Worked examples
  // ---------------------------------------------------------------------------

  /** "create a todo" has no `[:\s]` after "todo": placeholder title, no description. */
  lemma CreateATodoTitle()
    ensures ExtractTitle("create a todo") == UntitledTodo
  {
    var s := "create a todo";
    forall p: nat | p <= 7 ensures !CiAt(s, p, "todo") {
      assert p == 0 || p == 1 || p == 2 || p == 3 || p == 4 || p == 5 || p == 6 || p == 7;
      assert LowerChar(s[p]) != "todo"[0] || LowerChar(s[p + 1]) != "todo"[1];
    }
    UntitledWithoutMatch(s);
  }

  lemma CreateATodoDescription()
    ensures ExtractDescription("create a todo") == None
  {
    var s := "create a todo";
    assert LowerChar(s[0]) != "description"[0];
  }

  /** A full command (written in three pieces only to keep its characters easy to reach). */
  const ShoppingCommand := "create a todo: Shopping " + "description: buy pants, " + "sweater and underwears"

  lemma ShoppingTitleAt()
    ensures TitleAt(ShoppingCommand, 9, 2, 23)
  {
    var s := ShoppingCommand;
    ShoppingTodoWord();
    forall i | 13 <= i < 15 ensures IsColonOrSpace(s[i]) {
      assert i == 13 || i == 14;
    }
    forall i | 15 <= i < 23 ensures InGroup(s[i]) {
      assert i == 15 || i == 16 || i == 17 || i == 18 || i == 19 || i == 20 || i == 21 || i == 22;
    }
    ShoppingDescriptionAhead();
  }

  lemma ShoppingTodoWord()
    ensures CiAt(ShoppingCommand, 9, "todo")
  {
    var s := ShoppingCommand;
    forall i | 0 <= i < 4 ensures LowerChar(s[9 + i]) == "todo"[i] {
      assert i == 0 || i == 1 || i == 2 || i == 3;
    }
  }

  lemma ShoppingDescriptionAhead()
    ensures DescriptionAhead(ShoppingCommand, 23)
  {
    var s := ShoppingCommand;
    assert Run(s, 24, IsSpace) == 0;
    assert Run(s, 23, IsSpace) == 1;
    ShoppingDescriptionWord(true);
  }

  /** "description" at 24, and with `colon` the ':' after it too. */
  lemma ShoppingDescriptionWord(colon: bool)
    ensures CiAt(ShoppingCommand, 24, if colon then "description:" else "description")
  {
    var s := ShoppingCommand;
    var w := if colon then "description:" else "description";
    forall i | 0 <= i < |w| ensures LowerChar(s[24 + i]) == w[i] {
      assert i == 0 || i == 1 || i == 2 || i == 3 || i == 4 || i == 5 || i == 6 || i == 7 || i == 8 || i == 9
          || i == 10 || i == 11;
    }
  }

  /** The title regex matches "todo" at 9, the run ": " and the group "Shopping". */
  lemma ShoppingTitleMatch()
    ensures FirstTitle(ShoppingCommand, 9, 2, 23)
  {
    var s := ShoppingCommand;
    ShoppingTitleAt();
    forall q: nat | q < 9 ensures !CiAt(s, q, "todo") {
      assert q == 0 || q == 1 || q == 2 || q == 3 || q == 4 || q == 5 || q == 6 || q == 7 || q == 8;
      assert LowerChar(s[q]) != "todo"[0] || LowerChar(s[q + 1]) != "todo"[1];
    }
    assert !IsColonOrSpace(s[15]);
    forall e: nat | 15 < e < 23 ensures !DescriptionAhead(s, e) {
      assert e == 16 || e == 17 || e == 18 || e == 19 || e == 20 || e == 21 || e == 22;
      assert !IsSpace(s[e]);
    }
  }

  /** The description regex matches at 24, the run ": " and the group "buy pants". */
  lemma ShoppingDescriptionMatch()
    ensures FirstDescription(ShoppingCommand, 24, 2, 46)
  {
    var s := ShoppingCommand;
    ShoppingDescriptionAt();
    ShoppingNoEarlierDescription();
    assert !IsColonOrSpace(s[37]);
    assert !InGroup(s[46]);
  }

  lemma ShoppingDescriptionAt()
    ensures DescriptionAt(ShoppingCommand, 24, 2, 46)
  {
    var s := ShoppingCommand;
    ShoppingDescriptionWord(false);
    forall i | 35 <= i < 37 ensures IsColonOrSpace(s[i]) {
      assert i == 35 || i == 36;
    }
    forall i | 37 <= i < 46 ensures InGroup(s[i]) {
      assert i == 37 || i == 38 || i == 39 || i == 40 || i == 41 || i == 42 || i == 43 || i == 44 || i == 45;
    }
  }

  lemma ShoppingNoEarlierDescription()
    ensures forall q: nat :: q < 24 ==> !CiAt(ShoppingCommand, q, "description")
  {
    var s := ShoppingCommand;
    forall q: nat | q < 24 ensures !CiAt(s, q, "description") {
      assert || q == 0 || q == 1 || q == 2 || q == 3 || q == 4 || q == 5 || q == 6 || q == 7 || q == 8 || q == 9
             || q == 10 || q == 11 || q == 12 || q == 13 || q == 14 || q == 15 || q == 16 || q == 17 || q == 18
             || q == 19 || q == 20 || q == 21 || q == 22 || q == 23;
      assert LowerChar(s[q]) != "description"[0] || LowerChar(s[q + 1]) != "description"[1];
    }
  }

  lemma ShoppingTitleGroup()
    ensures ExtractTitle(ShoppingCommand) == Group(ShoppingCommand, 15, 23)
  {
    ShoppingTitleMatch();
    TitleOfFirstMatch(ShoppingCommand, 9, 2, 23);
  }

  lemma ShoppingDescriptionGroup()
    ensures ExtractDescription(ShoppingCommand) == Some(Group(ShoppingCommand, 37, 46))
  {
    ShoppingDescriptionMatch();
    DescriptionOfFirstMatch(ShoppingCommand, 24, 2, 46);
  }

  lemma ShoppingGroups()
    ensures Group(ShoppingCommand, 15, 23) == "Shopping"
    ensures Group(ShoppingCommand, 37, 46) == "buy pants"
  {
    assert ShoppingCommand[15..23] == "Shopping";
    TrimUnchanged("Shopping");
    assert ShoppingCommand[37..46] == "buy pants";
    TrimUnchanged("buy pants");
  }

  /**
   * The title stops before " description:", and the description stops at the
   * first comma: "sweater and underwears" is lost.
   */
  lemma ShoppingExtraction()
    ensures ExtractTitle(ShoppingCommand) == "Shopping"
    ensures ExtractDescription(ShoppingCommand) == Some("buy pants")
  {
    ShoppingTitleGroup();
    ShoppingDescriptionGroup();
    ShoppingGroups();
  }
}
