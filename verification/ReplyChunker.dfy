/** The progressive reply chunker of the bridge: words are packed greedily into chunks of at most
    `max` characters, and a word that is too long on its own is cut into pieces. */
module ReplyChunker {
  import opened Text

  /** The pieces `word[0..max]`, `word[max..2*max]`, ... */
  function HardSplit(word: string, max: nat): seq<string>
    requires max >= 1
    decreases |word|
  {
    if |word| <= max then (if word == "" then [] else [word])
    else [word[..max]] + HardSplit(word[max..], max)
  }

  function Flush(current: string): seq<string> {
    if current == "" then [] else [current]
  }

  /** The chunks still to be produced for `words` when `current` is the open chunk. */
  function Pack(words: seq<string>, current: string, max: nat): seq<string>
    requires max >= 1
    decreases |words|
  {
    if words == [] then Flush(current)
    else
      var word, rest := words[0], words[1..];
      if |word| > max then Flush(current) + HardSplit(word, max) + Pack(rest, "", max)
      else if current == "" then Pack(rest, word, max)
      else if |current| + 1 + |word| <= max then Pack(rest, current + " " + word, max)
      else [current] + Pack(rest, word, max)
  }

  /** One round of the packing loop: the chunks it closes and the chunk it leaves open. */
  function PackStep(word: string, current: string, max: nat): (seq<string>, string)
    requires max >= 1
  {
    if |word| > max then (Flush(current) + HardSplit(word, max), "")
    else if current == "" then ([], word)
    else if |current| + 1 + |word| <= max then ([], current + " " + word)
    else ([current], word)
  }

  lemma PackUnfolds(words: seq<string>, current: string, max: nat)
    requires max >= 1 && words != []
    ensures var (closed, open) := PackStep(words[0], current, max);
            Pack(words, current, max) == closed + Pack(words[1..], open, max)
  {}

  function Chunks(body: string, max: nat): seq<string>
    requires max >= 1
  {
    if |body| <= max || Words(body) == [] then [body] else Pack(Words(body), "", max)
  }

  ghost predicate AllFit(chunks: seq<string>, max: nat) {
    forall i | 0 <= i < |chunks| :: |chunks[i]| <= max
  }

  // ----- every chunk fits -----

  lemma {:induction false} HardSplitFits(word: string, max: nat)
    requires max >= 1
    ensures AllFit(HardSplit(word, max), max)
    ensures Concat(HardSplit(word, max)) == word
    decreases |word|
  {
    if |word| <= max {
      if word != "" { assert [word][1..] == []; }
    } else {
      var first, rest := word[..max], word[max..];
      HardSplitFits(rest, max);
      var more := HardSplit(rest, max);
      assert HardSplit(word, max) == [first] + more;
      hide *;
      assert ([first] + more)[1..] == more && first + rest == word;
      ConcatCons(first, more);
      FitsCons(first, more, max);
    }
  }

  lemma ConcatCons(first: string, more: seq<string>)
    ensures Concat([first] + more) == first + Concat(more)
  {
    assert ([first] + more)[1..] == more;
  }

  lemma FitsCons(first: string, more: seq<string>, max: nat)
    requires |first| <= max && AllFit(more, max)
    ensures AllFit([first] + more, max)
  {}

  lemma {:induction false} PackFits(words: seq<string>, current: string, max: nat)
    requires max >= 1 && |current| <= max
    ensures AllFit(Pack(words, current, max), max)
    decreases |words|
  {
    if words != [] {
      var word, rest := words[0], words[1..];
      if |word| > max {
        HardSplitFits(word, max);
        PackFits(rest, "", max);
      } else if current == "" {
        PackFits(rest, word, max);
      } else if |current| + 1 + |word| <= max {
        PackFits(rest, current + " " + word, max);
      } else {
        PackFits(rest, word, max);
      }
    }
  }

  // ----- nothing is lost, repeated or reordered -----

  lemma VisibleOfFlush(current: string)
    ensures Concat(Flush(current)) == current
  {
    if current != "" { assert [current][1..] == []; }
  }

  lemma VisibleConcat(a: seq<string>, b: seq<string>)
    ensures Visible(Concat(a + b)) == Visible(Concat(a)) + Visible(Concat(b))
  {
    ConcatAppend(a, b);
    VisibleAppend(Concat(a), Concat(b));
  }

  lemma VisibleOfBlank()
    ensures Visible(" ") == ""
  {
    VisibleOfSpaces(" ");
  }

  lemma VisibleOfCandidate(current: string, word: string)
    requires IsWord(word)
    ensures Visible(current + " " + word) == Visible(current) + word
    ensures Visible(word) == word
  {
    hide Visible, IsSpace;
    VisibleAppend(current + " ", word);
    VisibleAppend(current, " ");
    VisibleOfBlank();
    VisibleOfSolid(word);
  }

  /** The text of the chunks closed in one round, followed by the chunk left open. */
  lemma PackStepKeepsText(word: string, current: string, max: nat)
    requires max >= 1 && IsWord(word)
    ensures var (closed, open) := PackStep(word, current, max);
            Visible(Concat(closed)) + Visible(open) == Visible(current) + word
  {
    hide Visible, IsSpace, HardSplit, Concat;
    VisibleOfCandidate(current, word);
    VisibleOfFlush(current);
    VisibleOfFlush("");
    assert Visible("") == "" by { VisibleOfSpaces(""); }
    if |word| > max {
      HardSplitFits(word, max);
      VisibleConcat(Flush(current), HardSplit(word, max));
    }
  }

  lemma Regroup(a: string, b: string, c: string, d: string, tail: string)
    requires a + b == c + d
    ensures a + (b + tail) == c + (d + tail)
  {
    Assoc(a, b, tail);
    Assoc(c, d, tail);
  }

  lemma {:induction false} PackKeepsText(words: seq<string>, current: string, max: nat)
    requires max >= 1 && AllWords(words)
    ensures Visible(Concat(Pack(words, current, max))) == Visible(current) + Concat(words)
    decreases |words|
  {
    VisibleOfFlush(current);
    if words != [] {
      var (closed, open) := PackStep(words[0], current, max);
      PackUnfolds(words, current, max);
      PackKeepsText(words[1..], open, max);
      PackStepKeepsText(words[0], current, max);
      assert Concat(words) == words[0] + Concat(words[1..]);
      VisibleConcat(closed, Pack(words[1..], open, max));
      hide *;
      Regroup(Visible(Concat(closed)), Visible(open), Visible(current), words[0], Concat(words[1..]));
    }
  }

  lemma PackedIsFaithful(words: seq<string>, max: nat)
    requires max >= 1 && words != [] && AllWords(words)
    ensures AllFit(Pack(words, "", max), max)
    ensures Visible(Concat(Pack(words, "", max))) == Concat(words)
    ensures Pack(words, "", max) != []
  {
    hide IsSpace;
    PackFits(words, "", max);
    PackKeepsText(words, "", max);
    assert Visible("") == "" && Concat([]) == "";
    assert |words[0]| > 0;
    hide *;
  }

  /** Every chunk fits exactly when the body fits or holds something visible; the visible characters
      of the chunks are those of the body, each once and in order. */
  lemma ChunksAreFaithful(body: string, max: nat)
    requires max >= 1
    ensures AllFit(Chunks(body, max), max) <==> |body| <= max || Visible(body) != ""
    ensures Visible(Concat(Chunks(body, max))) == Visible(body)
    ensures Chunks(body, max) != []
  {
    hide Words, Pack, Visible, IsSpace;
    VisibleIsWords(body);
    if |body| <= max || Words(body) == [] {
      var single := [body];
      assert Concat(single) == body by { assert single[1..] == []; }
      assert single[0] == body;
    } else {
      PackedIsFaithful(Words(body), max);
    }
  }

  // ----- greedy packing is optimal -----

  ghost function Flatten(groups: seq<seq<string>>): seq<string> {
    if groups == [] then [] else groups[0] + Flatten(groups[1..])
  }

  /** Any way of cutting `words` into consecutive non-empty groups that fit when joined by blanks. */
  ghost predicate IsGrouping(groups: seq<seq<string>>, words: seq<string>, max: nat) {
    && Flatten(groups) == words
    && forall i | 0 <= i < |groups| :: groups[i] != [] && |Join(groups[i])| <= max
  }

  /** How many more chunks are opened for `words` after an open chunk of length `len`. */
  ghost function Opened(words: seq<string>, len: nat, max: nat): nat {
    if words == [] then 0
    else if len + 1 + |words[0]| <= max then Opened(words[1..], len + 1 + |words[0]|, max)
    else 1 + Opened(words[1..], |words[0]|, max)
  }

  /** A shorter open chunk never costs more, and a longer one costs at most one chunk more. */
  lemma {:induction false} OpenedMonotone(words: seq<string>, a: nat, b: nat, max: nat)
    ensures a <= b ==> Opened(words, a, max) <= Opened(words, b, max)
    ensures Opened(words, b, max) <= 1 + Opened(words, a, max)
    decreases |words|
  {
    if words != [] {
      var w, rest := |words[0]|, words[1..];
      OpenedMonotone(rest, a + 1 + w, b + 1 + w, max);
      OpenedMonotone(rest, w, b + 1 + w, max);
      OpenedMonotone(rest, w, a + 1 + w, max);
      OpenedMonotone(rest, a + 1 + w, w, max);
    }
  }

  lemma {:induction false} JoinGrows(group: seq<string>, n: nat)
    requires 1 <= n < |group|
    ensures |Join(group[..n])| + 1 + |group[n]| <= |Join(group)|
  {
    var a, b := group[..n], group[n..];
    JoinAppend(a, b);
    assert a + b == group;
    assert |Join(b)| >= |group[n]| by { if |b| > 1 { assert b[0] == group[n]; } }
  }

  /** Words that fit together in one group are all absorbed by the open chunk. */
  lemma {:induction false} OpenedAbsorbs(group: seq<string>, n: nat, words: seq<string>, max: nat)
    requires 1 <= n <= |group| && |Join(group)| <= max
    ensures Opened(group[n..] + words, |Join(group[..n])|, max) == Opened(words, |Join(group)|, max)
    decreases |group| - n
  {
    if n == |group| {
      assert group[n..] + words == words && group[..n] == group;
    } else {
      JoinGrows(group, n);
      var todo := group[n..] + words;
      assert todo[0] == group[n] && todo[1..] == group[n + 1..] + words;
      JoinAppend(group[..n], [group[n]]);
      assert group[..n] + [group[n]] == group[..n + 1];
      OpenedAbsorbs(group, n + 1, words, max);
    }
  }

  lemma {:induction false} OpenedAtMostGroups(groups: seq<seq<string>>, words: seq<string>, len: nat, max: nat)
    requires IsGrouping(groups, words, max)
    ensures Opened(words, len, max) <= |groups|
    decreases |groups|
  {
    if groups != [] {
      var g, rest := groups[0], groups[1..];
      var others := Flatten(rest);
      OpenedAtMostGroups(rest, others, |Join(g)|, max);
      assert words[0] == g[0] && words[1..] == g[1..] + others;
      assert g[..1] == [g[0]] && Join([g[0]]) == g[0];
      OpenedAbsorbs(g, 1, others, max);
      OpenedMonotone(words[1..], |g[0]|, len + 1 + |g[0]|, max);
    }
  }

  lemma {:induction false} PackCount(words: seq<string>, current: string, max: nat)
    requires max >= 1 && current != "" && AllWords(words) && AllFit(words, max)
    ensures |Pack(words, current, max)| == 1 + Opened(words, |current|, max)
    decreases |words|
  {
    if words != [] {
      var word, rest := words[0], words[1..];
      if |current| + 1 + |word| <= max {
        PackCount(rest, current + " " + word, max);
      } else {
        PackCount(rest, word, max);
      }
    }
  }

  /** The groups behind the chunks, when the open chunk holds the words `open`. */
  ghost function Groups(words: seq<string>, open: seq<string>, max: nat): seq<seq<string>>
    requires open != []
    decreases |words|
  {
    if words == [] then [open]
    else if |Join(open)| + 1 + |words[0]| <= max then Groups(words[1..], open + [words[0]], max)
    else [open] + Groups(words[1..], [words[0]], max)
  }

  lemma {:induction false} JoinNotEmpty(words: seq<string>)
    requires words != [] && AllWords(words)
    ensures Join(words) != ""
  {
    assert |words[0]| > 0;
  }

  lemma {:induction false} PackIsGrouping(words: seq<string>, open: seq<string>, max: nat)
    requires max >= 1 && AllWords(words) && AllFit(words, max)
    requires open != [] && AllWords(open) && |Join(open)| <= max
    ensures IsGrouping(Groups(words, open, max), open + words, max)
    ensures var groups := Groups(words, open, max);
            Pack(words, Join(open), max) == seq(|groups|, i requires 0 <= i < |groups| => Join(groups[i]))
    decreases |words|
  {
    JoinNotEmpty(open);
    if words == [] {
      assert [open][1..] == [] && Flatten([open]) == open + [] == open;
      assert open + words == open;
    } else {
      var word, rest := words[0], words[1..];
      if |Join(open)| + 1 + |word| <= max {
        JoinAppend(open, [word]);
        PackIsGrouping(rest, open + [word], max);
        assert open + [word] + rest == open + words;
      } else {
        assert Join([word]) == word;
        PackIsGrouping(rest, [word], max);
        assert [word] + rest == words;
        assert Groups(words, open, max)[1..] == Groups(rest, [word], max);
      }
    }
  }

  /** If no word is longer than a chunk, no grouping of the words into fitting chunks is shorter than
      the chunks. */
  lemma ChunksAreOptimal(body: string, max: nat, groups: seq<seq<string>>)
    requires max >= 1 && Words(body) != [] && AllFit(Words(body), max)
    requires IsGrouping(groups, Words(body), max)
    ensures |Chunks(body, max)| <= |groups|
  {
    VisibleIsWords(body);
    var words := Words(body);
    var first, rest := words[0], words[1..];
    PackCount(rest, first, max);
    var g, others := groups[0], Flatten(groups[1..]);
    assert words == g + others && g[0] == first && rest == g[1..] + others;
    assert g[..1] == [g[0]] && Join([g[0]]) == g[0];
    OpenedAbsorbs(g, 1, others, max);
    OpenedAtMostGroups(groups[1..], others, |Join(g)|, max);
  }

  /** And then the chunks of a longer body are themselves such a grouping: consecutive words joined by
      single blanks. */
  lemma ChunksAreGrouping(body: string, max: nat) returns (groups: seq<seq<string>>)
    requires max >= 1 && |body| > max && Words(body) != [] && AllFit(Words(body), max)
    ensures IsGrouping(groups, Words(body), max)
    ensures Chunks(body, max) == seq(|groups|, i requires 0 <= i < |groups| => Join(groups[i]))
  {
    VisibleIsWords(body);
    var words := Words(body);
    PackIsGrouping(words[1..], [words[0]], max);
    assert [words[0]] + words[1..] == words;
    groups := Groups(words[1..], [words[0]], max);
  }

  // ----- what the chunks of a longer body are -----

  /** A stretch of words that share a chunk, or a word that is too long for one. */
  datatype Part = Run(words: seq<string>) | Long(word: string)

  ghost function WordsOf(parts: seq<Part>): seq<string> {
    if parts == [] then []
    else (match parts[0] case Run(words) => words case Long(word) => [word]) + WordsOf(parts[1..])
  }

  /** The chunks of one part: a run is joined by single blanks, and a long word is cut into pieces that are
      full except for the last one. */
  ghost predicate Shows(chunks: seq<string>, part: Part, max: nat) {
    match part
    case Run(words) => words != [] && AllFit(words, max) && |Join(words)| <= max && chunks == [Join(words)]
    case Long(word) =>
      && |word| > max && Concat(chunks) == word && chunks != []
      && (forall i | 0 <= i < |chunks| - 1 :: |chunks[i]| == max)
      && 1 <= |chunks[|chunks| - 1]| <= max
  }

  /** The first word of the next run would not have fitted. */
  ghost predicate Tight(part: Part, next: Part, max: nat) {
    part.Run? && next.Run? && next.words != [] ==> |Join(part.words)| + 1 + |next.words[0]| > max
  }

  ghost predicate IsLayout(parts: seq<Part>, shown: seq<seq<string>>, words: seq<string>, max: nat) {
    && WordsOf(parts) == words && |shown| == |parts|
    && (forall i | 0 <= i < |parts| :: Shows(shown[i], parts[i], max))
    && (forall i | 0 <= i < |parts| - 1 :: Tight(parts[i], parts[i + 1], max))
  }

  /** The chunks are the words in order, laid out greedily. */
  ghost predicate LaidOut(chunks: seq<string>, words: seq<string>, max: nat) {
    exists parts: seq<Part>, shown: seq<seq<string>> :: IsLayout(parts, shown, words, max) && chunks == Flatten(shown)
  }

  lemma LayoutCons(part: Part, first: seq<string>, parts: seq<Part>, shown: seq<seq<string>>, words: seq<string>,
                   max: nat)
    requires IsLayout(parts, shown, words, max) && Shows(first, part, max)
    requires parts != [] ==> Tight(part, parts[0], max)
    ensures IsLayout([part] + parts, [first] + shown, WordsOf([part]) + words, max)
    ensures Flatten([first] + shown) == first + Flatten(shown)
  {
    hide Shows, Tight;
    assert ([part] + parts)[1..] == parts && ([first] + shown)[1..] == shown;
    assert [part][1..] == [];
    assert forall i | 1 <= i <= |parts| :: ([part] + parts)[i] == parts[i - 1] && ([first] + shown)[i] == shown[i - 1];
  }

  lemma {:induction false} HardSplitShows(word: string, max: nat)
    requires max >= 1 && word != ""
    ensures var pieces := HardSplit(word, max);
            && pieces != [] && 1 <= |pieces[|pieces| - 1]| <= max
            && forall i | 0 <= i < |pieces| - 1 :: |pieces[i]| == max
    decreases |word|
  {
    if |word| > max {
      HardSplitShows(word[max..], max);
      var more := HardSplit(word[max..], max);
      assert HardSplit(word, max) == [word[..max]] + more;
      assert forall i | 1 <= i <= |more| :: HardSplit(word, max)[i] == more[i - 1];
    }
  }

  /** The open chunk in front of a layout of the words behind it. */
  lemma RunThen(open: seq<string>, parts: seq<Part>, shown: seq<seq<string>>, words: seq<string>, max: nat)
    requires open != [] && AllWords(open) && AllFit(open, max) && |Join(open)| <= max
    requires IsLayout(parts, shown, words, max) && (parts != [] ==> Tight(Run(open), parts[0], max))
    ensures Join(open) != "" && IsLayout([Run(open)] + parts, [[Join(open)]] + shown, open + words, max)
    ensures Flatten([[Join(open)]] + shown) == Flush(Join(open)) + Flatten(shown)
  {
    hide IsLayout, Flatten, Tight;
    JoinNotEmpty(open);
    assert [Run(open)][1..] == [];
    assert WordsOf([Run(open)]) == open + [] == open;
    LayoutCons(Run(open), [Join(open)], parts, shown, words, max);
  }

  lemma LongThen(word: string, parts: seq<Part>, shown: seq<seq<string>>, words: seq<string>, max: nat)
    requires max >= 1 && |word| > max && IsLayout(parts, shown, words, max)
    ensures IsLayout([Long(word)] + parts, [HardSplit(word, max)] + shown, [word] + words, max)
    ensures Flatten([HardSplit(word, max)] + shown) == HardSplit(word, max) + Flatten(shown)
  {
    LongShows(word, max);
    hide IsLayout, Flatten, Shows, HardSplit, Tight;
    LayoutCons(Long(word), HardSplit(word, max), parts, shown, words, max);
  }

  /** The layout behind the chunks, when the open chunk holds the words `open`. */
  lemma {:induction false} PackLaysOut(words: seq<string>, open: seq<string>, max: nat)
    returns (parts: seq<Part>, shown: seq<seq<string>>)
    requires max >= 1 && AllWords(words) && AllWords(open) && AllFit(open, max)
    requires open != [] ==> |Join(open)| <= max
    ensures IsLayout(parts, shown, open + words, max) && Flatten(shown) == Pack(words, Join(open), max)
    ensures open != [] ==> parts != [] && parts[0].Run? && parts[0].words != [] && parts[0].words[0] == open[0]
    decreases |words|
  {
    hide Shows, HardSplit, IsLayout, WordsOf, Flatten, IsWord, Tight;
    if words == [] {
      LayoutOfNone(max);
      parts, shown := [], [];
      if open != [] {
        RunThen(open, parts, shown, [], max);
        parts, shown := [Run(open)] + parts, [[Join(open)]] + shown;
      }
      assert open + words == open + [] == open;
    } else {
      var word, rest := words[0], words[1..];
      if |word| > max {
        parts, shown := PackLaysOut(rest, [], max);
        assert [] + rest == rest;
        LongThen(word, parts, shown, rest, max);
        LongShows(word, max);
        assert [word] + rest == words;
        parts, shown := [Long(word)] + parts, [HardSplit(word, max)] + shown;
        if open != [] {
          RunThen(open, parts, shown, words, max);
          Assoc(Flush(Join(open)), HardSplit(word, max), Pack(rest, "", max));
          parts, shown := [Run(open)] + parts, [[Join(open)]] + shown;
        } else {
          assert open + words == words;
        }
      } else if open == [] {
        assert Join([word]) == word;
        parts, shown := PackLaysOut(rest, [word], max);
        assert [word] + rest == open + words;
      } else if |Join(open)| + 1 + |word| <= max {
        JoinAppend(open, [word]);
        parts, shown := PackLaysOut(rest, open + [word], max);
        JoinNotEmpty(open);
        assert open + [word] + rest == open + words;
      } else {
        assert Join([word]) == word;
        parts, shown := PackLaysOut(rest, [word], max);
        RunsApart(open, parts[0], max);
        assert [word] + rest == words;
        RunThen(open, parts, shown, words, max);
        parts, shown := [Run(open)] + parts, [[Join(open)]] + shown;
      }
    }
  }

  lemma LayoutOfNone(max: nat)
    ensures IsLayout([], [], [], max) && Flatten([]) == []
  {}

  lemma LongShows(word: string, max: nat)
    requires max >= 1 && |word| > max
    ensures Shows(HardSplit(word, max), Long(word), max) && WordsOf([Long(word)]) == [word]
    ensures forall next: Part :: Tight(Long(word), next, max)
    ensures forall run: seq<string> :: Tight(Run(run), Long(word), max)
  {
    HardSplitFits(word, max);
    HardSplitShows(word, max);
    assert [Long(word)][1..] == [];
  }

  lemma RunsApart(open: seq<string>, next: Part, max: nat)
    requires next.Run? && next.words != [] && |Join(open)| + 1 + |next.words[0]| > max
    ensures Tight(Run(open), next, max)
  {}

  /** A longer body with something visible in it is laid out greedily: no word is lost, split across chunks
      unless it is too long for one, or joined to another one without a blank. */
  lemma ChunksAreLaidOut(body: string, max: nat)
    requires max >= 1 && |body| > max && Visible(body) != ""
    ensures LaidOut(Chunks(body, max), Words(body), max)
  {
    VisibleIsWords(body);
    hide Visible, Words, IsLayout, Pack;
    var parts, shown := PackLaysOut(Words(body), [], max);
    assert Join([]) == "" && Chunks(body, max) == Flatten(shown);
    assert [] + Words(body) == Words(body);
  }

  // ----- the code -----

  lemma HardSplitStep(left: string, max: nat, cut: nat)
    requires max >= 1 && left != "" && cut == if |left| <= max then |left| else max
    ensures HardSplit(left, max) == [left[..cut]] + HardSplit(left[cut..], max)
  {
    if |left| <= max { assert left[..cut] == left && left[cut..] == ""; }
  }

  method CutWord(word: string, max: nat) returns (pieces: seq<string>)
    requires max >= 1
    ensures pieces == HardSplit(word, max)
  {
    pieces := [];
    var offset := 0;
    ghost var left, todo := word, HardSplit(word, max);
    while offset < |word|
      invariant offset >= 0 && |left| == (if offset <= |word| then |word| - offset else 0)
      invariant left == word[|word| - |left|..]
      invariant todo == HardSplit(left, max)
      invariant pieces + todo == HardSplit(word, max)
    {
      var stop := if offset + max <= |word| then offset + max else |word|;
      HardSplitStep(left, max, stop - offset);
      assert left[..stop - offset] == word[offset..stop];
      pieces := pieces + [word[offset..stop]];
      left := left[stop - offset..];
      todo := HardSplit(left, max);
      offset := offset + max;
    }
  }

  /** The body of the loop over the words. */
  method PackWord(word: string, chunks: seq<string>, current: string, max: nat)
    returns (chunks': seq<string>, current': string)
    requires max >= 1
    ensures chunks' == chunks + PackStep(word, current, max).0
    ensures current' == PackStep(word, current, max).1
  {
    chunks', current' := chunks, current;
    if |word| > max {
      if current' != "" {
        chunks' := chunks' + [current'];
        current' := "";
      }
      var pieces := CutWord(word, max);
      chunks' := chunks' + pieces;
      return;
    }
    if current' == "" {
      current' := word;
      return;
    }
    var candidate := current' + " " + word;
    if |candidate| <= max {
      current' := candidate;
      return;
    }
    chunks' := chunks' + [current'];
    current' := word;
  }

  /** The loop over the words, with the final flush. */
  method PackAll(words: seq<string>, max: nat) returns (chunks: seq<string>)
    requires max >= 1
    ensures chunks == Pack(words, "", max)
  {
    hide PackStep;
    chunks := [];
    var current := "";
    ghost var goal := Pack(words, "", max);
    ghost var todo := goal;
    for i := 0 to |words|
      invariant todo == Pack(words[i..], current, max)
      invariant chunks + todo == goal
    {
      ghost var step, before := PackStep(words[i], current, max), chunks;
      assert words[i..][0] == words[i] && words[i..][1..] == words[i + 1..];
      PackUnfolds(words[i..], current, max);
      chunks, current := PackWord(words[i], chunks, current, max);
      todo := Pack(words[i + 1..], current, max);
      Assoc(before, step.0, todo);
    }
    if current != "" {
      chunks := chunks + [current];
    }
  }

  method SplitReplyIntoChunks(body: string, max: nat) returns (chunks: seq<string>)
    requires max >= 1
    ensures chunks == Chunks(body, max) && chunks != []
    ensures |body| <= max || Visible(body) == "" ==> chunks == [body]
    ensures |body| > max && Visible(body) != "" ==> LaidOut(chunks, Words(body), max)
    ensures AllFit(chunks, max) <==> |body| <= max || Visible(body) != ""
    ensures Visible(Concat(chunks)) == Visible(body)
  {
    ChunksAreFaithful(body, max);
    if |body| > max && Visible(body) != "" { ChunksAreLaidOut(body, max); }
    VisibleIsWords(body);
    hide LaidOut, AllFit, Visible, Words, Concat;
    if |body| <= max {
      return [body];
    }
    var words := Words(body);
    if |words| == 0 {
      return [body];
    }
    chunks := PackAll(words, max);
    chunks := if |chunks| > 0 then chunks else [body];
  }
}
