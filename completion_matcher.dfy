/**
 * The completion-phrase matcher of the task tracker: the four bilingual
 * patterns of `COMPLETION_PATTERNS`, searched in the lower-cased message with
 * Python `re` semantics (word boundaries `\b`, whitespace runs `\s+`), OR-ed and
 * tried in order until the first hit.
 *
 * A pattern is a sequence of word groups, read as the regular expression
 *   \b G1 \s+ G2 \s+ ... Gn \b
 * where each group is an alternation of literal words; an optional group carries
 * its own trailing `\s+` inside the `( ... )?`, as `(lo\s+)?` does.
 */
module CompletionMatcher {

  /**
   * `\w` on a `str`: `_` and the alphanumeric characters. Classified here for
   * ASCII and for U+00AA..U+024F (Latin-1 Supplement, Latin Extended-A and -B).
   */
  predicate IsWordChar(c: char)
  {
    || ('a' <= c <= 'z') || ('A' <= c <= 'Z') || ('0' <= c <= '9') || c == '_'
    || c == 'ª' || c == '²' || c == '³' || c == 'µ' || c == '¹' || c == 'º'
    || ('¼' <= c <= '¾')
    || ('À' <= c <= 'ɏ' && c != '×' && c != '÷')
  }

  /** `\s` on a `str`: the characters for which `str.isspace()` holds. */
  predicate IsSpace(c: char)
  {
    || ('\U{9}' <= c <= '\U{D}') || ('\U{1C}' <= c <= ' ')
    || c == '\U{85}' || c == '\U{A0}' || c == '\U{1680}'
    || ('\U{2000}' <= c <= '\U{200A}') || c == '\U{2028}' || c == '\U{2029}'
    || c == '\U{202F}' || c == '\U{205F}' || c == '\U{3000}'
  }

  /** `str.lower()` on one character, for ASCII and Latin-1 capitals. */
  function LowerChar(c: char): (r: char)
    ensures 'A' <= c <= 'Z' || ('À' <= c <= 'Þ' && c != '×') ==> r as int == c as int + 32
    ensures !('A' <= c <= 'Z' || ('À' <= c <= 'Þ' && c != '×')) ==> r == c
    ensures IsWordChar(r) == IsWordChar(c)
  {
    if 'A' <= c <= 'Z' || ('À' <= c <= 'Þ' && c != '×') then (c as int + 32) as char
    else c
  }

  /** `message_text.lower()`. */
  function Lower(s: string): string
  {
    seq(|s|, i requires 0 <= i < |s| => LowerChar(s[i]))
  }

  /** Lower-casing twice is lower-casing once. */
  lemma LowerIdempotent(s: string)
    ensures Lower(Lower(s)) == Lower(s)
  {
  }

  /** `\b` at position `i` of `s`: exactly one side of `i` is a word character. */
  predicate Boundary(s: string, i: nat)
    requires i <= |s|
  {
    (i > 0 && IsWordChar(s[i - 1])) != (i < |s| && IsWordChar(s[i]))
  }

  /** `s[i..j]` is a whitespace run (possibly empty). */
  predicate AllSpaces(s: string, i: nat, j: nat)
    requires i <= j <= |s|
  {
    forall k :: i <= k < j ==> IsSpace(s[k])
  }

  /** One parenthesised alternation of words; `optional` for a `( ... \s+)?` group. */
  datatype Group = Group(words: seq<string>, optional: bool)

  type Pattern = seq<Group>

  /** The groups `gs`, with `\s+` after every group but the last, match exactly `s[i..e]`. */
  predicate GroupsMatch(gs: seq<Group>, s: string, i: nat, e: nat)
    requires i <= e <= |s|
    decreases |gs|
  {
    if |gs| == 0 then i == e
    else if |gs| == 1 then (gs[0].optional && i == e) || s[i..e] in gs[0].words
    else
      || (gs[0].optional && GroupsMatch(gs[1..], s, i, e))
      || exists m, j | i <= m < j <= e :: s[i..m] in gs[0].words && AllSpaces(s, m, j) && GroupsMatch(gs[1..], s, j, e)
  }

  /** `re.search(pattern, s)` finds a match: some `s[i..e]` matches, with `\b` at both ends. */
  predicate Search(p: Pattern, s: string)
  {
    exists i, e | 0 <= i <= e <= |s| :: Boundary(s, i) && GroupsMatch(p, s, i, e) && Boundary(s, e)
  }

  /** The words of `\b(listo|hecho|completado|terminé|cumplido|finished|done)\b`. */
  const COMPLETION_WORDS: seq<string> := ["listo", "hecho", "completado", "terminé", "cumplido", "finished", "done"]

  /** `COMPLETION_PATTERNS`; `completed?` is the alternation `complete|completed`. */
  const COMPLETION_PATTERNS: seq<Pattern> := [
    [Group(COMPLETION_WORDS, false)],
    [Group(["ya"], false), Group(["lo"], true), Group(["hice", "terminé", "completé"], false)],
    [Group(["task", "tarea"], false), Group(["complete", "completed"], false)],
    [Group(["reminder", "recordatorio"], false), Group(["done", "listo"], false)]
  ]

  /** Some pattern of `COMPLETION_PATTERNS` is found in the lower-cased message. */
  predicate IsCompletionMessage(messageText: string)
  {
    exists n | 0 <= n < |COMPLETION_PATTERNS| :: Search(COMPLETION_PATTERNS[n], Lower(messageText))
  }

  /**
   * The pattern loop of `detect_completion` and `check_for_completions`: the
   * patterns are tried in order and the loop stops at the first one found.
   */
  method DetectCompletionPhrase(messageText: string) returns (detected: bool)
    ensures detected == IsCompletionMessage(messageText)
  {
    var messageLower := Lower(messageText);
    detected := false;
    var n := 0;
    while n < |COMPLETION_PATTERNS|
      invariant 0 <= n <= |COMPLETION_PATTERNS|
      invariant forall k :: 0 <= k < n ==> !Search(COMPLETION_PATTERNS[k], messageLower)
    {
      if Search(COMPLETION_PATTERNS[n], messageLower) {
        detected := true;
        break;
      }
      n := n + 1;
    }
  }

  /** Case does not matter: two messages that lower-case alike are treated alike. */
  lemma CaseInsensitive(a: string, b: string)
    requires Lower(a) == Lower(b)
    ensures IsCompletionMessage(a) == IsCompletionMessage(b)
  {
  }

  /**
   * Any message whose lower-cased text holds one of the bare completion words
   * as a whole word is a completion message.
   */
  lemma {:induction false} WholeWordIsCompletion(messageText: string, i: nat, w: string)
    requires w in COMPLETION_WORDS
    requires i + |w| <= |messageText|
    requires Lower(messageText)[i..i + |w|] == w
    requires i == 0 || !IsWordChar(Lower(messageText)[i - 1])
    requires i + |w| == |messageText| || !IsWordChar(Lower(messageText)[i + |w|])
    ensures IsCompletionMessage(messageText)
  {
    var s := Lower(messageText);
    WholeWordFound(s, i, w);
    assert Search(COMPLETION_PATTERNS[0], s);
  }

  /** The search of the first pattern finds a delimited completion word. */
  lemma {:induction false} WholeWordFound(s: string, i: nat, w: string)
    requires w in COMPLETION_WORDS
    requires i + |w| <= |s| && s[i..i + |w|] == w
    requires i == 0 || !IsWordChar(s[i - 1])
    requires i + |w| == |s| || !IsWordChar(s[i + |w|])
    ensures Search(COMPLETION_PATTERNS[0], s)
  {
    var e := i + |w|;
    CompletionWordDelimited(w);
    assert s[i] == w[0] && s[e - 1] == w[|w| - 1];
    assert GroupsMatch(COMPLETION_PATTERNS[0], s, i, e);
    FoundAt(COMPLETION_PATTERNS[0], s, i, e);
  }

  /** Every bare completion word starts and ends with a word character. */
  lemma CompletionWordDelimited(w: string)
    requires w in COMPLETION_WORDS
    ensures |w| > 0 && IsWordChar(w[0]) && IsWordChar(w[|w| - 1])
  {
  }

  /** A match of `p` at `s[i..e]` delimited by non-word characters is found by the search. */
  lemma FoundAt(p: Pattern, s: string, i: nat, e: nat)
    requires i < e <= |s| && GroupsMatch(p, s, i, e)
    requires IsWordChar(s[i]) && IsWordChar(s[e - 1])
    requires i == 0 || !IsWordChar(s[i - 1])
    requires e == |s| || !IsWordChar(s[e])
    ensures Search(p, s)
  {
    assert Boundary(s, i) && Boundary(s, e);
  }

  /** A two-group phrase `A \s+ B` whose words are separated by exactly one space. */
  lemma {:induction false} PhraseMatches(g: Group, h: Group, s: string, i: nat, m: nat, e: nat)
    requires i <= m && m + 1 <= e <= |s|
    requires s[i..m] in g.words && IsSpace(s[m]) && s[m + 1..e] in h.words
    ensures GroupsMatch([g, h], s, i, e)
  {
    assert [g, h][1..] == [h];
    assert AllSpaces(s, m, m + 1);
    assert GroupsMatch([h], s, m + 1, e);
  }

  /** The words a match of some pattern must start with: the first group of each pattern. */
  const LEAD_WORDS: seq<string> := COMPLETION_WORDS + ["ya", "task", "tarea", "reminder", "recordatorio"]

  /** `w` occurs in `s` at position `i`. */
  predicate WordAt(s: string, w: string, i: nat)
  {
    i + |w| <= |s| && s[i..i + |w|] == w
  }

  /** `w` occurs in `s`. */
  ghost predicate ContainsWord(s: string, w: string)
  {
    exists i: nat :: WordAt(s, w, i)
  }

  /**
   * A completion message contains (lower-cased) one of the lead words; so a
   * message that contains none of them is not a completion message.
   */
  lemma CompletionNeedsLeadWord(messageText: string)
    requires IsCompletionMessage(messageText)
    ensures exists w | w in LEAD_WORDS :: ContainsWord(Lower(messageText), w)
  {
    var s := Lower(messageText);
    var n :| 0 <= n < |COMPLETION_PATTERNS| && Search(COMPLETION_PATTERNS[n], s);
    LeadWordsCover(n);
    var w := SearchFindsLeadWord(COMPLETION_PATTERNS[n], s);
    assert w in LEAD_WORDS;
  }

  /** Every pattern starts with a group that is not optional and whose words are lead words. */
  lemma LeadWordsCover(n: nat)
    requires n < |COMPLETION_PATTERNS|
    ensures |COMPLETION_PATTERNS[n]| > 0 && !COMPLETION_PATTERNS[n][0].optional
    ensures forall w :: w in COMPLETION_PATTERNS[n][0].words ==> w in LEAD_WORDS
  {
  }

  /** A found pattern whose first group is not optional has one of that group's words in the text. */
  lemma SearchFindsLeadWord(p: Pattern, s: string) returns (w: string)
    requires |p| > 0 && !p[0].optional && Search(p, s)
    ensures w in p[0].words && ContainsWord(s, w)
  {
    var i, e :| 0 <= i <= e <= |s| && Boundary(s, i) && GroupsMatch(p, s, i, e) && Boundary(s, e);
    var m := LeadGroupMatched(p, s, i, e);
    w := s[i..m];
    assert WordAt(s, w, i);
  }

  /** A match of groups whose first group is not optional starts with one of that group's words. */
  lemma LeadGroupMatched(gs: seq<Group>, s: string, i: nat, e: nat) returns (m: nat)
    requires i <= e <= |s| && |gs| > 0 && !gs[0].optional
    requires GroupsMatch(gs, s, i, e)
    ensures i <= m <= e && s[i..m] in gs[0].words
  {
    if |gs| == 1 {
      m := e;
    } else {
      var m', j :| i <= m' < j <= e && s[i..m'] in gs[0].words && AllSpaces(s, m', j) && GroupsMatch(gs[1..], s, j, e);
      m := m';
    }
  }

  /** The empty message is not a completion message. */
  lemma EmptyIsNotCompletion()
    ensures !IsCompletionMessage("")
  {
  }

  // Sample completion messages, one lemma each.

  /** Case does not matter. */
  lemma SampleUpperCase()
    ensures IsCompletionMessage("LISTO")
  {
    WholeWordIsCompletion("LISTO", 0, "listo");
  }

  /** Punctuation is a word boundary. */
  lemma SamplePunctuation()
    ensures IsCompletionMessage("hecho!")
  {
    WholeWordIsCompletion("hecho!", 0, "hecho");
  }

  /** A completion word at the end of a longer message. */
  lemma SampleWordAtEnd()
    ensures IsCompletionMessage("ya está hecho")
  {
    WholeWordIsCompletion("ya está hecho", 8, "hecho");
  }

  /** A completion word alone. */
  lemma SampleCompletado()
    ensures IsCompletionMessage("completado")
  {
    WholeWordIsCompletion("completado", 0, "completado");
  }

  /** An accented completion word at the start of a longer message. */
  lemma SampleAccentedWord()
    ensures IsCompletionMessage("terminé la tarea")
  {
    WholeWordIsCompletion("terminé la tarea", 0, "terminé");
  }

  /** An English completion word at the start of a longer message. */
  lemma SampleEnglishWord()
    ensures IsCompletionMessage("done with the task")
  {
    WholeWordIsCompletion("done with the task", 0, "done");
  }

  /** The noun-and-verb phrase. */
  lemma SampleTaskCompleted()
    ensures IsCompletionMessage("task completed")
  {
    var s := Lower("task completed");
    assert s == "task completed";
    assert s[0..4] == "task" && s[5..14] == "completed";
    PhraseMatches(COMPLETION_PATTERNS[2][0], COMPLETION_PATTERNS[2][1], s, 0, 4, 14);
    FoundAt(COMPLETION_PATTERNS[2], s, 0, 14);
  }

  /** The reminder phrase. */
  lemma SampleReminderDone()
    ensures IsCompletionMessage("reminder done")
  {
    var s := Lower("reminder done");
    assert s == "reminder done";
    assert s[0..8] == "reminder" && s[9..13] == "done";
    PhraseMatches(COMPLETION_PATTERNS[3][0], COMPLETION_PATTERNS[3][1], s, 0, 8, 13);
    FoundAt(COMPLETION_PATTERNS[3], s, 0, 13);
  }

  /** The optional group: `ya lo hice` matches `\bya\s+(lo\s+)?(hice|...)\b`. */
  lemma SampleYaLoHice()
    ensures IsCompletionMessage("Ya lo hice")
  {
    var s := Lower("Ya lo hice");
    assert s == "ya lo hice";
    var p := COMPLETION_PATTERNS[1];
    assert s[0..2] == "ya" && s[3..5] == "lo" && s[6..10] == "hice";
    assert p[1..][1..] == [p[2]];
    assert GroupsMatch([p[2]], s, 6, 10);
    assert AllSpaces(s, 5, 6);
    assert GroupsMatch(p[1..], s, 3, 10);
    assert AllSpaces(s, 2, 3);
    assert GroupsMatch(p, s, 0, 10);
    FoundAt(p, s, 0, 10);
  }

  /**
   * Word boundaries do not see negation: "no está listo" is a completion
   * message, as the source's patterns make it.
   */
  lemma NegationIsNotParsed()
    ensures IsCompletionMessage("no está listo")
  {
    WholeWordIsCompletion("no está listo", 8, "listo");
  }
}
