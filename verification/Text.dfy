/** The few facts about JavaScript strings that the other modules rely on: white space,
    `trim`, splitting on runs of white space, and joining with one blank. */
module Text {

  /** The characters matched by `\s`, which are also the ones removed by `trim`. */
  predicate IsSpace(c: char) {
    var n := c as int;
    || 0x09 <= n <= 0x0D || n == 0x20 || n == 0xA0 || n == 0x1680
    || 0x2000 <= n <= 0x200A || n == 0x2028 || n == 0x2029 || n == 0x202F
    || n == 0x205F || n == 0x3000 || n == 0xFEFF
  }

  ghost predicate AllSpace(s: string) {
    forall i | 0 <= i < |s| :: IsSpace(s[i])
  }

  ghost predicate NoSpace(s: string) {
    forall i | 0 <= i < |s| :: !IsSpace(s[i])
  }

  function TrimStart(s: string): string {
    if s != "" && IsSpace(s[0]) then TrimStart(s[1..]) else s
  }

  function TrimEnd(s: string): string {
    if s != "" && IsSpace(s[|s| - 1]) then TrimEnd(s[..|s| - 1]) else s
  }

  function Trim(s: string): string {
    TrimEnd(TrimStart(s))
  }

  /** No white space at either end. */
  predicate Trimmed(s: string) {
    s == "" || (!IsSpace(s[0]) && !IsSpace(s[|s| - 1]))
  }

  lemma {:induction false} TrimStartCuts(s: string) returns (pre: string)
    ensures AllSpace(pre) && pre + TrimStart(s) == s
    ensures TrimStart(s) == "" || !IsSpace(TrimStart(s)[0])
  {
    pre := "";
    if s != "" && IsSpace(s[0]) {
      var p := TrimStartCuts(s[1..]);
      pre := [s[0]] + p;
    }
  }

  lemma {:induction false} TrimEndCuts(s: string) returns (post: string)
    ensures AllSpace(post) && TrimEnd(s) + post == s
    ensures TrimEnd(s) == "" || !IsSpace(TrimEnd(s)[|TrimEnd(s)| - 1])
  {
    post := "";
    if s != "" && IsSpace(s[|s| - 1]) {
      var p := TrimEndCuts(s[..|s| - 1]);
      post := p + [s[|s| - 1]];
    }
  }

  /** `trim` removes white space at both ends and nothing else. */
  lemma TrimCuts(s: string) returns (pre: string, post: string)
    ensures AllSpace(pre) && AllSpace(post) && pre + Trim(s) + post == s
    ensures Trimmed(Trim(s))
  {
    pre := TrimStartCuts(s);
    post := TrimEndCuts(TrimStart(s));
    assert Trim(s) != "" ==> Trim(s)[0] == TrimStart(s)[0];
    assert pre + Trim(s) + post == pre + (Trim(s) + post);
  }

  lemma TrimOfTrimmed(s: string)
    requires Trimmed(s)
    ensures Trim(s) == s
  {}

  lemma Assoc<T>(a: seq<T>, b: seq<T>, c: seq<T>)
    ensures (a + b) + c == a + (b + c)
  {}

  /** What is left of a text when all white space is dropped. */
  ghost function Visible(s: string): string {
    if s == "" then "" else (if IsSpace(s[0]) then "" else [s[0]]) + Visible(s[1..])
  }

  lemma {:induction false} VisibleAppend(a: string, b: string)
    ensures Visible(a + b) == Visible(a) + Visible(b)
  {
    hide IsSpace;
    if a == "" {
      assert a + b == b;
    } else {
      VisibleAppend(a[1..], b);
      assert (a + b)[0] == a[0] && (a + b)[1..] == a[1..] + b;
      Assoc(if IsSpace(a[0]) then "" else [a[0]], Visible(a[1..]), Visible(b));
    }
  }

  lemma {:induction false} VisibleOfSpaces(s: string)
    requires AllSpace(s)
    ensures Visible(s) == ""
  {
    if s != "" { VisibleOfSpaces(s[1..]); }
  }

  lemma {:induction false} VisibleOfSolid(s: string)
    requires NoSpace(s)
    ensures Visible(s) == s
  {
    if s != "" { VisibleOfSolid(s[1..]); }
  }

  /** `(cur + s).split(/\s+/)` for a `cur` without white space. */
  function Split(s: string, cur: string): seq<string>
    decreases |s|
  {
    if s == "" then [cur]
    else if IsSpace(s[0]) then
      TrimStartShrinks(s);
      [cur] + Split(TrimStart(s), "")
    else Split(s[1..], cur + [s[0]])
  }

  lemma TrimStartShrinks(s: string)
    ensures |TrimStart(s)| <= |s|
    ensures s != "" && IsSpace(s[0]) ==> |TrimStart(s)| < |s|
  {}

  /** `filter(Boolean)` on a list of strings. */
  function NonEmpty(ws: seq<string>): seq<string> {
    if ws == [] then [] else (if ws[0] == "" then [] else [ws[0]]) + NonEmpty(ws[1..])
  }

  /** `s.trim().split(/\s+/).filter(Boolean)`. */
  function Words(s: string): seq<string> {
    NonEmpty(Split(Trim(s), ""))
  }

  ghost predicate IsWord(w: string) {
    w != "" && NoSpace(w)
  }

  /** `w0 g0 w1 g1 ... wn`: words with the given gaps between them. */
  ghost function Weave(words: seq<string>, gaps: seq<string>): string
    requires |words| == |gaps| + 1
  {
    if gaps == [] then words[0] else words[0] + gaps[0] + Weave(words[1..], gaps[1..])
  }

  ghost predicate RealGaps(gaps: seq<string>) {
    forall i | 0 <= i < |gaps| :: gaps[i] != "" && AllSpace(gaps[i])
  }

  lemma GapThenRest(s: string) returns (gap: string, rest: string)
    requires s != "" && IsSpace(s[0]) && !IsSpace(s[|s| - 1])
    ensures rest == TrimStart(s) && s == gap + rest && gap != "" && AllSpace(gap) && |rest| < |s|
    ensures rest != "" && !IsSpace(rest[0]) && !IsSpace(rest[|rest| - 1])
  {
    hide IsSpace;
    rest := TrimStart(s);
    TrimStartShrinks(s);
    gap := TrimStartCuts(s);
    assert rest != "" by { assert gap + "" == gap; }
    assert rest[|rest| - 1] == s[|s| - 1];
  }

  ghost predicate AllWords(words: seq<string>) {
    forall i | 0 <= i < |words| :: IsWord(words[i])
  }

  lemma WeaveCons(w: string, gap: string, rest: string, words: seq<string>, gaps: seq<string>)
    requires IsWord(w) && gap != "" && AllSpace(gap) && AllWords(words) && RealGaps(gaps)
    requires |words| == |gaps| + 1 && rest == Weave(words, gaps)
    ensures AllWords([w] + words) && RealGaps([gap] + gaps)
    ensures w + (gap + rest) == Weave([w] + words, [gap] + gaps)
  {
    hide IsWord, AllSpace;
    assert ([w] + words)[1..] == words && ([gap] + gaps)[1..] == gaps;
    Assoc(w, gap, rest);
  }

  lemma MoveChar(cur: string, s: string)
    requires s != ""
    ensures cur + [s[0]] + s[1..] == cur + s
  {}

  lemma {:induction false} SplitWeaves(s: string, cur: string) returns (gaps: seq<string>)
    requires NoSpace(cur)
    requires s == "" ==> cur != ""
    requires s != "" ==> !IsSpace(s[|s| - 1]) && (cur != "" || !IsSpace(s[0]))
    ensures AllWords(Split(s, cur))
    ensures |Split(s, cur)| == |gaps| + 1 && RealGaps(gaps)
    ensures cur + s == Weave(Split(s, cur), gaps)
    decreases |s|
  {
    hide IsSpace;
    if s == "" {
      gaps := [];
    } else if IsSpace(s[0]) {
      var gap, rest := GapThenRest(s);
      hide TrimStart, AllSpace, Weave;
      var more := SplitWeaves(rest, "");
      assert "" + rest == rest;
      WeaveCons(cur, gap, rest, Split(rest, ""), more);
      gaps := [gap] + more;
    } else {
      hide AllSpace, Weave;
      gaps := SplitWeaves(s[1..], cur + [s[0]]);
      MoveChar(cur, s);
    }
  }

  lemma {:induction false} NonEmptyKeeps(ws: seq<string>)
    requires forall i | 0 <= i < |ws| :: ws[i] != ""
    ensures NonEmpty(ws) == ws
  {
    if ws != [] {
      NonEmptyKeeps(ws[1..]);
      assert ws == [ws[0]] + ws[1..];
    }
  }

  /** The words of a text are its maximal runs without white space, in order: the text is those
      words with non-empty runs of white space between them and white space at both ends. */
  lemma WordsAreTheText(s: string) returns (pre: string, gaps: seq<string>, post: string)
    ensures AllSpace(pre) && AllSpace(post) && RealGaps(gaps)
    ensures AllWords(Words(s))
    ensures Words(s) == [] ==> AllSpace(s)
    ensures Words(s) != [] ==> |Words(s)| == |gaps| + 1 && s == pre + Weave(Words(s), gaps) + post
  {
    pre, post := TrimCuts(s);
    var t := Trim(s);
    gaps := [];
    if t == "" {
      assert Split(t, "") == [""];
      assert NonEmpty([""]) == [] by { assert [""][1..] == []; }
      assert s == pre + post;
    } else {
      gaps := SplitWeaves(t, "");
      assert "" + t == t;
      NonEmptyKeeps(Split(t, ""));
    }
  }

  ghost function Concat(ws: seq<string>): string {
    if ws == [] then "" else ws[0] + Concat(ws[1..])
  }

  lemma {:induction false} ConcatAppend(a: seq<string>, b: seq<string>)
    ensures Concat(a + b) == Concat(a) + Concat(b)
  {
    if a == [] {
      assert a + b == b;
    } else {
      ConcatAppend(a[1..], b);
      assert (a + b)[0] == a[0] && (a + b)[1..] == a[1..] + b;
      Assoc(a[0], Concat(a[1..]), Concat(b));
    }
  }

  lemma {:induction false} VisibleOfWeave(words: seq<string>, gaps: seq<string>)
    requires |words| == |gaps| + 1 && RealGaps(gaps)
    requires AllWords(words)
    ensures Visible(Weave(words, gaps)) == Concat(words)
  {
    VisibleOfSolid(words[0]);
    if gaps == [] {
      assert words[1..] == [];
    } else {
      VisibleOfWeave(words[1..], gaps[1..]);
      VisibleOfSpaces(gaps[0]);
      VisibleAppend(words[0] + gaps[0], Weave(words[1..], gaps[1..]));
      VisibleAppend(words[0], gaps[0]);
    }
  }

  lemma VisibleIsWords(s: string)
    ensures Visible(s) == Concat(Words(s))
    ensures AllWords(Words(s))
    ensures Words(s) == [] <==> Visible(s) == ""
  {
    var pre, gaps, post := WordsAreTheText(s);
    var ws := Words(s);
    if ws == [] {
      VisibleOfSpaces(s);
    } else {
      VisibleOfWeave(ws, gaps);
      VisibleOfSpaces(pre);
      VisibleOfSpaces(post);
      VisibleAppend(pre + Weave(ws, gaps), post);
      VisibleAppend(pre, Weave(ws, gaps));
      assert |ws[0]| > 0;
    }
  }

  /** Words joined by single blanks. */
  function Join(ws: seq<string>): string {
    if ws == [] then "" else if |ws| == 1 then ws[0] else ws[0] + " " + Join(ws[1..])
  }

  lemma {:induction false} JoinAppend(a: seq<string>, b: seq<string>)
    requires a != [] && b != []
    ensures Join(a + b) == Join(a) + " " + Join(b)
  {
    assert (a + b)[1..] == a[1..] + b;
    if |a| == 1 {
      assert a[1..] + b == b;
    } else {
      JoinAppend(a[1..], b);
    }
  }
}
