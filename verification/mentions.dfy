/**
 * Mention resolution of `ChatManager.process_user_input` (app/chat.py and
 * chat.py): decide whether a prompt asks about a third party, normalise the
 * name the extractor model answered, keep the prior turns that mention it and
 * render them as the history block handed to the answer chain.
 */
module Mentions {
  import opened Wrappers
  import opened Text
  import opened Seqs

  /** The phrases that mark a question about somebody. */
  const TriggerPhrases: seq<string> := ["tell me about", "you know", "describe", "who is"]

  /** The phrase whose turns are never used as evidence. */
  const Excluded: string := "did you know"

  /** app/chat.py: some trigger phrase occurs in the lower-cased prompt. */
  predicate IsNameQuery(prompt: string) {
    exists phrase :: phrase in TriggerPhrases && Contains(Lower(prompt), phrase)
  }

  /** chat.py spells the same test as four `or`-ed containment checks. */
  predicate IsNameQueryChained(prompt: string)
    ensures IsNameQueryChained(prompt) <==> IsNameQuery(prompt)
  {
    Contains(Lower(prompt), "tell me about") || Contains(Lower(prompt), "you know")
    || Contains(Lower(prompt), "describe") || Contains(Lower(prompt), "who is")
  }

  /** Capitalisation does not matter: "Tell Me About Alice" is a name query. */
  lemma TitleCaseTriggers(prompt: string)
    requires prompt == "Tell Me About Alice"
    ensures IsNameQuery(prompt)
  {
    var l := Lower(prompt);
    assert l[..13] == "tell me about";
    assert IsPrefix("tell me about", l);
    assert "tell me about" in TriggerPhrases;
  }

  /** The characters `strip(" .")` removes. */
  predicate IsSpaceOrDot(c: char) {
    c == ' ' || c == '.'
  }

  /**
   * `_extract_name_from_question_using_llm` after the model call: strip
   * whitespace, then spaces and periods; the literal "None" means no name.
   */
  function NormaliseName(reply: string): (name: Option<string>)
    ensures name.Some? ==> name.value != "None"
    ensures name.Some? && name.value != [] ==>
              !IsSpaceOrDot(name.value[0]) && !IsSpaceOrDot(name.value[|name.value| - 1])
  {
    var n := Trim(Strip(reply), IsSpaceOrDot);
    if n == "None" then None else Some(n)
  }

  /** Both "None" and "None." mean no name. */
  lemma NoneWithPeriodIsAbsent(reply: string)
    requires reply == "None." || reply == "None"
    ensures NormaliseName(reply) == None
  {
    StripIdempotentOnTrimmed(reply);
    if reply == "None." {
      assert reply[..|reply| - 1] == "None";
      TrimLeftOfTrimmed(reply, IsSpaceOrDot);
      TrimRightOfTrimmed("None", IsSpaceOrDot);
    } else {
      TrimLeftOfTrimmed(reply, IsSpaceOrDot);
      TrimRightOfTrimmed(reply, IsSpaceOrDot);
    }
  }

  /** Every character of `s` satisfies `p`. */
  predicate All(s: string, p: char -> bool) {
    forall k :: 0 <= k < |s| ==> p(s[k])
  }

  /** A name with nothing for either strip to remove at its ends. */
  predicate IsBareName(n: string) {
    n != [] && !IsSpace(n[0]) && !IsSpaceOrDot(n[0]) && !IsSpace(n[|n| - 1]) && !IsSpaceOrDot(n[|n| - 1])
  }

  /**
   * The model's answer is the name, possibly wrapped in spaces and periods and
   * then in any whitespace: normalising recovers the name, unless it is "None".
   */
  lemma NormaliseNameTrims(ws1: string, sd1: string, n: string, sd2: string, ws2: string)
    requires All(ws1, IsSpace) && All(ws2, IsSpace)
    requires All(sd1, IsSpaceOrDot) && All(sd2, IsSpaceOrDot)
    requires IsBareName(n)
    ensures NormaliseName(ws1 + sd1 + n + sd2 + ws2) == (if n == "None" then None else Some(n))
  {
    var i, j := StripAroundName(ws1, sd1, n, sd2, ws2);
    DotTrimAroundName(sd1[i..], n, sd2[..j]);
  }

  /** `strip()` takes the whitespace and stops inside the spaces and periods. */
  lemma StripAroundName(ws1: string, sd1: string, n: string, sd2: string, ws2: string) returns (i: nat, j: nat)
    requires All(ws1, IsSpace) && All(ws2, IsSpace)
    requires IsBareName(n)
    ensures i <= |sd1| && j <= |sd2|
    ensures Strip(ws1 + sd1 + n + sd2 + ws2) == sd1[i..] + n + sd2[..j]
  {
    var whole := ws1 + sd1 + n + sd2 + ws2;
    var tail := n + sd2 + ws2;
    Regroup(ws1 + sd1, n, sd2, ws2);
    i := LeftStripStops(ws1, sd1, tail);
    var front := sd1[i..] + n;
    var left := TrimLeft(whole, IsSpace);
    Regroup(sd1[i..], n, sd2, ws2);
    j := RightStripStops(front, sd2, ws2);
    calc {
      Strip(whole);
      TrimRight(left, IsSpace);
      front + sd2[..j];
    }
  }

  lemma Regroup(a: string, b: string, c: string, d: string)
    ensures a + b + c + d == a + (b + c + d)
  {
  }

  lemma LeftStripStops(ws: string, p: string, x: string) returns (i: nat)
    requires All(ws, IsSpace)
    requires x != [] && !IsSpace(x[0])
    ensures i <= |p| && TrimLeft(ws + p + x, IsSpace) == p[i..] + x
  {
    assert ws + p + x == ws + (p + x);
    TrimLeftSkips(ws, p + x, IsSpace);
    i := TrimLeftStopsIn(p, x, IsSpace);
  }

  lemma RightStripStops(x: string, p: string, ws: string) returns (j: nat)
    requires All(ws, IsSpace)
    requires x != [] && !IsSpace(x[|x| - 1])
    ensures j <= |p| && TrimRight(x + p + ws, IsSpace) == x + p[..j]
  {
    TrimRightSkips(x + p, ws, IsSpace);
    j := TrimRightStopsIn(x, p, IsSpace);
  }

  /** `strip(" .")` then takes the remaining spaces and periods. */
  lemma DotTrimAroundName(a: string, n: string, b: string)
    requires All(a, IsSpaceOrDot) && All(b, IsSpaceOrDot)
    requires IsBareName(n)
    ensures Trim(a + n + b, IsSpaceOrDot) == n
  {
    assert a + n + b == a + (n + b);
    TrimLeftSkips(a, n + b, IsSpaceOrDot);
    assert (n + b)[0] == n[0];
    TrimLeftOfTrimmed(n + b, IsSpaceOrDot);
    TrimRightSkips(n, b, IsSpaceOrDot);
    TrimRightOfTrimmed(n, IsSpaceOrDot);
  }

  /** A prior message as the search returns it: content, role, timestamp. */
  datatype Turn = Turn(content: string, role: string, timestamp: int)

  /** Mentions the name (ignoring case) and is not a "did you know" turn. */
  predicate IsRelevant(t: Turn, name: string) {
    Contains(Lower(t.content), Lower(name)) && !Contains(Lower(t.content), Excluded)
  }

  /** The list comprehension that keeps the relevant mentions. */
  function FilterMentions(rows: seq<Turn>, name: string): (kept: seq<Turn>)
    ensures IsSubsequence(kept, rows)
    ensures forall t :: t in kept <==> t in rows && IsRelevant(t, name)
    decreases |rows|
  {
    if rows == [] then []
    else if IsRelevant(rows[0], name) then
      var rest := FilterMentions(rows[1..], name);
      assert ([rows[0]] + rest)[1..] == rest;
      [rows[0]] + rest
    else FilterMentions(rows[1..], name)
  }

  /** Filtering two runs of rows filters each run, keeping every copy of a kept row. */
  lemma {:induction false} FilterMentionsAppend(a: seq<Turn>, b: seq<Turn>, name: string)
    ensures FilterMentions(a + b, name) == FilterMentions(a, name) + FilterMentions(b, name)
    decreases |a|
  {
    if a == [] {
      assert a + b == b;
    } else {
      assert (a + b)[0] == a[0];
      assert (a + b)[1..] == a[1..] + b;
      FilterMentionsAppend(a[1..], b, name);
    }
  }

  /** A single row is kept exactly when it is relevant. */
  lemma FilterMentionsOne(t: Turn, name: string)
    ensures FilterMentions([t], name) == if IsRelevant(t, name) then [t] else []
  {
    assert [t][1..] == [];
  }

  /** A turn that contains "did you know" is never evidence, whatever else it says. */
  lemma ExcludedTurnNeverKept(rows: seq<Turn>, name: string, t: Turn)
    requires Contains(Lower(t.content), Excluded)
    ensures t !in FilterMentions(rows, name)
  {
  }

  /** The block's first line. */
  function Header(name: string): string {
    "Previous mentions of " + name + ":\n"
  }

  /** One `- {role} said: '{content}'` line. */
  function Bullet(t: Turn): string {
    "- " + t.role + " said: '" + t.content + "'\n"
  }

  function Bullets(mentions: seq<Turn>): string
    decreases |mentions|
  {
    if mentions == [] then "" else Bullet(mentions[0]) + Bullets(mentions[1..])
  }

  /** The bullet list of two runs of mentions is the two lists one after the other. */
  lemma {:induction false} BulletsAppend(a: seq<Turn>, b: seq<Turn>)
    ensures Bullets(a + b) == Bullets(a) + Bullets(b)
    decreases |a|
  {
    if a == [] {
      assert a + b == b;
    } else {
      assert (a + b)[0] == a[0];
      assert (a + b)[1..] == a[1..] + b;
      BulletsAppend(a[1..], b);
    }
  }

  /** The history block: empty without mentions, else the header and one line per mention. */
  function HistoryContext(name: string, mentions: seq<Turn>): (ctx: string)
    ensures ctx == "" <==> mentions == []
    ensures mentions != [] ==> IsPrefix(Header(name), ctx)
  {
    if mentions == [] then "" else
      assert (Header(name) + Bullets(mentions))[..|Header(name)|] == Header(name);
      Header(name) + Bullets(mentions)
  }

  lemma BulletsCons(t: Turn, rest: seq<Turn>)
    ensures Bullets([t] + rest) == Bullet(t) + Bullets(rest)
  {
    assert ([t] + rest)[0] == t;
    assert ([t] + rest)[1..] == rest;
  }

  lemma BulletsSplit(mentions: seq<Turn>, i: nat)
    requires i <= |mentions|
    ensures Bullets(mentions) == Bullets(mentions[..i]) + Bullets(mentions[i..])
  {
    assert mentions == mentions[..i] + mentions[i..];
    BulletsAppend(mentions[..i], mentions[i..]);
  }

  lemma BulletsFrom(mentions: seq<Turn>, i: nat)
    requires i < |mentions|
    ensures Bullets(mentions[i..]) == Bullet(mentions[i]) + Bullets(mentions[i + 1..])
  {
    assert mentions[i..] == [mentions[i]] + mentions[i + 1..];
    BulletsCons(mentions[i], mentions[i + 1..]);
  }

  /** The bullet list of a run of mentions, split around its `i`-th mention. */
  lemma BulletsAround(mentions: seq<Turn>, i: nat)
    requires i < |mentions|
    ensures Bullets(mentions) == Bullets(mentions[..i]) + (Bullet(mentions[i]) + Bullets(mentions[i + 1..]))
  {
    BulletsSplit(mentions, i);
    BulletsFrom(mentions, i);
  }

  /** The bullet list of the first `i + 1` mentions extends that of the first `i`. */
  lemma BulletsSnoc(mentions: seq<Turn>, i: nat)
    requires i < |mentions|
    ensures Bullets(mentions[..i + 1]) == Bullets(mentions[..i]) + Bullet(mentions[i])
  {
    BulletsAround(mentions[..i + 1], i);
    assert mentions[..i + 1][..i] == mentions[..i];
    assert mentions[..i + 1][i + 1..] == [];
  }

  /** Every surviving mention appears in the block as its own line. */
  lemma HistoryContextListsEachMention(name: string, mentions: seq<Turn>, i: nat)
    requires i < |mentions|
    ensures Contains(HistoryContext(name, mentions), Bullet(mentions[i]))
  {
    BulletsAround(mentions, i);
    ContainsMiddle(Bullets(mentions[..i]), Bullet(mentions[i]), Bullets(mentions[i + 1..]));
    ContainsInSuffix(Header(name), Bullets(mentions), Bullet(mentions[i]));
  }

  /** The source's loop: start from the header and append one line per mention. */
  method BuildHistoryContext(name: string, mentions: seq<Turn>) returns (ctx: string)
    ensures ctx == HistoryContext(name, mentions)
  {
    ctx := "";
    if mentions != [] {
      ctx := Header(name);
      var i := 0;
      while i < |mentions|
        invariant 0 <= i <= |mentions|
        invariant ctx == Header(name) + Bullets(mentions[..i])
      {
        BulletsSnoc(mentions, i);
        ctx := ctx + Bullet(mentions[i]);
        i := i + 1;
      }
      assert mentions[..i] == mentions;
    }
  }

  /** What the mention step found: the name, whether it searched, the mentions and the block. */
  datatype MentionQuery = MentionQuery(name: Option<string>, searched: bool, mentions: seq<Turn>, context: string)

  /**
   * The mention step of `process_user_input`. `extractorReply` is the name
   * model's answer and `rows` what the conversation search returned for the
   * name; neither is consulted unless the step gets that far.
   */
  function ResolveMention(prompt: string, extractorReply: string, rows: seq<Turn>): (q: MentionQuery)
    ensures q.name == (if IsNameQuery(prompt) then NormaliseName(extractorReply) else None)
    ensures q.searched <==> IsNameQuery(prompt) && q.name.Some? && q.name.value != ""
    ensures !q.searched ==> q.context == "" && q.mentions == []
    ensures q.searched ==> q.mentions == FilterMentions(rows, q.name.value)
    ensures q.context != "" <==> q.mentions != []
    ensures q.searched ==> q.context == HistoryContext(q.name.value, q.mentions)
  {
    if !IsNameQuery(prompt) then MentionQuery(None, false, [], "")
    else
      var name := NormaliseName(extractorReply);
      if name.None? || name.value == "" then MentionQuery(name, false, [], "")
      else
        var kept := FilterMentions(rows, name.value);
        MentionQuery(name, true, kept, HistoryContext(name.value, kept))
  }

  /** Without a trigger phrase there is no extraction and no search. */
  lemma NoTriggerNoSearch(prompt: string, extractorReply: string, rows: seq<Turn>)
    requires !IsNameQuery(prompt)
    ensures ResolveMention(prompt, extractorReply, rows) == MentionQuery(None, false, [], "")
  {
  }

  /** An extractor answer of "None." suppresses the search. */
  lemma NoneAnswerSuppressesSearch(prompt: string, extractorReply: string, rows: seq<Turn>)
    requires extractorReply == "None."
    ensures !ResolveMention(prompt, extractorReply, rows).searched
    ensures ResolveMention(prompt, extractorReply, rows).context == ""
  {
    NoneWithPeriodIsAbsent(extractorReply);
  }

  /**
   * "Tell Me About Alice" with the extractor answering "Alice." searches for
   * Alice and renders whatever relevant rows the search returned.
   */
  lemma AliceQuerySearches(prompt: string, reply: string, rows: seq<Turn>)
    requires prompt == "Tell Me About Alice" && reply == "Alice."
    ensures var q := ResolveMention(prompt, reply, rows);
            && q.searched && q.name == Some("Alice")
            && q.mentions == FilterMentions(rows, "Alice")
  {
    TitleCaseTriggers(prompt);
    assert reply == "" + "" + "Alice" + "." + "";
    NormaliseNameTrims("", "", "Alice", ".", "");
  }

  lemma FirstBobTurnRelevant(t: Turn, name: string)
    requires t.content == "Do you know Bob?" && name == "Bob"
    ensures IsRelevant(t, name)
  {
    var l := Lower(t.content);
    assert Lower(name) == "bob";
    assert l[12..15] == "bob";
    assert OccursAt(l, "bob", 12);
    ContainsIffOccurs(l, "bob");
    assert 'i' in Excluded && 'i' !in l;
    if Contains(l, Excluded) {
      ContainsOnlyPresentChars(l, Excluded);
    }
  }

  lemma SecondBobLower(content: string)
    requires content == "I don't know much about Bob"
    ensures Lower(content) == "i don't know much about bob"
  {
  }

  lemma SecondBobLowerRelevant(l: string, name: string)
    requires l == "i don't know much about bob" && Lower(name) == "bob"
    ensures Contains(l, Lower(name)) && !Contains(l, Excluded)
  {
    assert l[24..27] == "bob";
    assert OccursAt(l, "bob", 24);
    ContainsIffOccurs(l, "bob");
    assert 'y' in Excluded;
    assert 'y' !in l;
    if Contains(l, Excluded) {
      ContainsOnlyPresentChars(l, Excluded);
    }
  }

  lemma SecondBobTurnRelevant(t: Turn, name: string)
    requires t.content == "I don't know much about Bob" && name == "Bob"
    ensures IsRelevant(t, name)
  {
    SecondBobLower(t.content);
    assert Lower(name) == "bob";
    SecondBobLowerRelevant(Lower(t.content), name);
  }

  /**
   * Neither "Do you know Bob?" nor "I don't know much about Bob" contains
   * "did you know", so both are kept when looking for Bob.
   */
  lemma BobExample(a: Turn, b: Turn, name: string)
    requires a.content == "Do you know Bob?" && b.content == "I don't know much about Bob"
    requires name == "Bob"
    ensures FilterMentions([a, b], name) == [a, b]
  {
    FirstBobTurnRelevant(a, name);
    SecondBobTurnRelevant(b, name);
    assert [a, b][1..] == [b];
    assert [b][1..] == [];
  }
}
