/**
 * The template slicer: its constructor builds the marker trie, rejects
 * clashing and blocking markers and fills the mode machine; `SliceTemplate`
 * runs the detector over a template and cuts it into slices.
 */
module TemplateSlicer {
  import opened StcgBase
  import opened Slices
  import opened MarkerTrie

  /** The four markers, in the order they are inserted into the trie. */
  datatype Markers = Markers(codeBegin: string, codeEnd: string, outputBegin: string, outputEnd: string)

  function Words(m: Markers): (ws: seq<string>)
    ensures |ws| == 4
  {
    [m.codeBegin, m.codeEnd, m.outputBegin, m.outputEnd]
  }

  /** The slicer's modes (0, 1 and 2 in the emitter table). */
  datatype Mode = TextMode | CodeMode | OutputMode

  /** An emitter entry: the mode to enter and the factory for the slice
      the marker closes. */
  datatype Transition = Transition(to: Mode, factory: Kind)

  /** The four legal moves: code-begin and output-begin leave text mode,
      closing what was text; code-end and output-end return to it, closing
      code and output respectively. Nothing else is a move. */
  function Next(m: Markers, mode: Mode, w: string): (r: Option<Transition>)
    ensures r.Some? ==> w in Words(m)
    ensures r.Some? ==> (r.value.to == TextMode <==> mode != TextMode)
    ensures r.Some? ==> (r.value.factory == TextKind <==> mode == TextMode)
    ensures r.Some? && r.value.factory == CodeKind ==> mode == CodeMode && w == m.codeEnd
    ensures r.Some? && r.value.factory == OutputKind ==> mode == OutputMode && w == m.outputEnd
    ensures mode == TextMode && (w == m.codeBegin || w == m.outputBegin) ==> r.Some?
  {
    match mode
    case TextMode =>
      if w == m.codeBegin then Some(Transition(CodeMode, TextKind))
      else if w == m.outputBegin then Some(Transition(OutputMode, TextKind))
      else None
    case CodeMode => if w == m.codeEnd then Some(Transition(TextMode, CodeKind)) else None
    case OutputMode => if w == m.outputEnd then Some(Transition(TextMode, OutputKind)) else None
  }

  /** The slicer's tables: `gotoFn` and `outFn` are the marker detector,
      `emitter` the mode machine. */
  datatype Slicer = Slicer(debugLen: int, gotoFn: Goto, outFn: map<State, string>,
                           emitter: map<Mode, map<string, Transition>>)

  /** The emitter table holds exactly the moves of `Next`. */
  ghost predicate EmitterFor(em: map<Mode, map<string, Transition>>, m: Markers) {
    && em.Keys == {TextMode, CodeMode, OutputMode}
    && (forall mode, w :: mode in em ==> (w in em[mode] <==> Next(m, mode, w).Some?))
    && (forall mode, w :: mode in em && w in em[mode] ==> em[mode][w] == Next(m, mode, w).value)
  }

  /** A row of the emitter answers for `Next`, marker by marker. */
  lemma EmitterAnswers(em: map<Mode, map<string, Transition>>, m: Markers, mode: Mode, w: string)
    requires EmitterFor(em, m)
    ensures mode in em
    ensures w in em[mode] <==> Next(m, mode, w).Some?
    ensures w in em[mode] ==> Next(m, mode, w) == Some(em[mode][w])
  {
    assert mode.TextMode? || mode.CodeMode? || mode.OutputMode?;
  }

  /** What the constructor establishes when it succeeds: distinct,
      non-empty markers, none a prefix of another; `gotoFn` is the trie of
      the markers with states numbered in creation order; `outFn` maps
      exactly the states that end a marker to that marker, and those states
      have no way out. */
  ghost predicate Built(sl: Slicer, m: Markers) {
    var ws := Words(m);
    var labels := TrieLabels(ws);
    && (forall j :: 0 <= j < |ws| ==> ws[j] != [])
    && Distinct(ws)
    && sl.debugLen >= 1
    && IsTrie(sl.gotoFn, labels)
    && (forall s: State :: s in sl.outFn <==> s < |labels| && labels[s] in ws)
    && (forall s :: s in sl.outFn ==> sl.outFn[s] == labels[s] && sl.gotoFn[s] == map[])
    && EmitterFor(sl.emitter, m)
  }

  /** The index of the first word that repeats an earlier one; none
      exactly when the words are distinct. */
  function FirstRepeat(ws: seq<string>): (r: Option<nat>)
    ensures r.None? <==> Distinct(ws)
    ensures r.Some? ==> r.value < |ws| && (exists i :: 0 <= i < r.value && ws[i] == ws[r.value])
                        && forall i, j :: 0 <= i < j < r.value ==> ws[i] != ws[j]
    decreases |ws|
  {
    if ws == [] then None
    else
      var n := |ws| - 1;
      match FirstRepeat(ws[..n])
      case Some(j) => Some(j)
      case None => if ws[n] in ws[..n] then Some(n) else None
  }

  /** A word blocks when it is itself one of the words and a strict
      prefix of one of them: the detector, having found it, never reads on. */
  predicate Blocking(ws: seq<string>, x: string) {
    x in ws && exists j :: 0 <= j < |ws| && IsStrictPrefix(x, ws[j])
  }

  function FirstBlockingIn(ws: seq<string>, labels: seq<string>, n: nat): (r: Option<nat>)
    requires n <= |labels|
    ensures r.None? ==> forall t :: 0 <= t < n ==> !Blocking(ws, labels[t])
    ensures r.Some? ==> r.value < n && Blocking(ws, labels[r.value])
                        && forall t :: 0 <= t < r.value ==> !Blocking(ws, labels[t])
  {
    if n == 0 then None
    else match FirstBlockingIn(ws, labels, n - 1)
      case Some(t) => Some(t)
      case None => if Blocking(ws, labels[n - 1]) then Some(n - 1) else None
  }

  /** The lowest-numbered trie state whose label is a blocking word: the
      one the constructor reports, since it checks states in ascending order. */
  function FirstBlocking(ws: seq<string>): (r: Option<State>)
    ensures var labels := TrieLabels(ws);
      && (r.None? ==> forall t :: 0 <= t < |labels| ==> !Blocking(ws, labels[t]))
      && (r.Some? ==> r.value < |labels| && Blocking(ws, labels[r.value])
                      && forall t :: 0 <= t < r.value ==> !Blocking(ws, labels[t]))
  {
    FirstBlockingIn(ws, TrieLabels(ws), |TrieLabels(ws)|)
  }

  /** Some state blocks exactly when one word is a strict prefix of another. */
  lemma BlockingIffStrictPrefix(ws: seq<string>)
    ensures FirstBlocking(ws).Some? <==>
            exists i, j :: 0 <= i < |ws| && 0 <= j < |ws| && IsStrictPrefix(ws[i], ws[j])
  {
    var labels := TrieLabels(ws);
    TrieLabelsProperties(ws);
    if FirstBlocking(ws).Some? {
      var x := labels[FirstBlocking(ws).value];
      var i :| 0 <= i < |ws| && ws[i] == x;
      var j :| 0 <= j < |ws| && IsStrictPrefix(x, ws[j]);
      assert IsStrictPrefix(ws[i], ws[j]);
    }
    if exists i, j :: 0 <= i < |ws| && 0 <= j < |ws| && IsStrictPrefix(ws[i], ws[j]) {
      var i, j :| 0 <= i < |ws| && 0 <= j < |ws| && IsStrictPrefix(ws[i], ws[j]);
      assert IsPrefix(ws[i], ws[i]);
      assert ws[i] in labels;
      var t :| 0 <= t < |labels| && labels[t] == ws[i];
      assert Blocking(ws, labels[t]);
    }
  }

  /** Every word of a list is one of its trie's labels. */
  lemma WordsAreLabels(ws: seq<string>)
    ensures forall x :: x in ws ==> x in TrieLabels(ws)
  {
    TrieLabelsProperties(ws);
    forall x | x in ws
      ensures x in TrieLabels(ws)
    {
      var j :| 0 <= j < |ws| && ws[j] == x;
      assert IsPrefix(x, ws[j]);
    }
  }

  /** The inner loop's invariant after `k` characters of `word`: the
      table is the trie of the labels grown by the prefixes of the word
      read so far, `top` is its last state and `at` spells those `k`
      characters. */
  ghost predicate Inserting(labels: seq<string>, word: string, k: nat, g: Goto, grown: seq<string>, top: State, at: State) {
    && k <= |word| && grown == Grow(labels, word[..k]) && GoodLabels(grown)
    && top + 1 == |grown| && IsTrie(g, grown)
    && at < |grown| && grown[at] == word[..k]
  }

  /** The inner loop follows an existing transition: the labels stay as
      they are and the new state spells one more character of the word. */
  lemma FollowStep(g: Goto, labels: seq<string>, grown: seq<string>, word: string, k: nat, top: State, s: State)
    requires GoodLabels(labels) && Inserting(labels, word, k, g, grown, top, s)
    requires k < |word| && word[k] in g[s]
    ensures Inserting(labels, word, k + 1, g, grown, top, g[s][word[k]])
  {
    assert word[..k + 1] == word[..k] + [word[k]] && word[..k + 1][..k] == word[..k];
    assert grown[g[s][word[k]]] == word[..k + 1];
  }

  /** The inner loop creates a state: it gets the next number and the
      label that spells one more character of the word. */
  lemma CreateStep(g: Goto, labels: seq<string>, grown: seq<string>, word: string, k: nat, top: State, s: State)
    requires GoodLabels(labels) && Inserting(labels, word, k, g, grown, top, s)
    requires k < |word| && word[k] !in g[s]
    ensures Inserting(labels, word, k + 1, AddState(g, s, word[k], top + 1), grown + [word[..k + 1]], top + 1, top + 1)
  {
    var c := word[k];
    var p := word[..k + 1];
    assert p == grown[s] + [c] && p[..|p| - 1] == word[..k];
    NewLabel(g, grown, s, c);
    assert Grow(labels, p) == grown + [p];
    GrowProperties(labels, p);
    AddChild(g, grown, s, c, |grown|);
  }

  /** One pass of the constructor's inner loop: walk `word` from the
      root, creating a state for each character the trie cannot follow.
      The trie grows by exactly the missing prefixes of `word`, numbered
      in order, and `cState` ends on the state labelled `word`. */
  method InsertWord(gotoFn: Goto, cGotoState: State, word: string, ghost labels: seq<string>)
    returns (gotoFn': Goto, cGotoState': State, cState: State)
    requires GoodLabels(labels) && IsTrie(gotoFn, labels) && cGotoState + 1 == |labels|
    ensures IsTrie(gotoFn', Grow(labels, word)) && cGotoState' + 1 == |Grow(labels, word)|
    ensures cState < |Grow(labels, word)| && Grow(labels, word)[cState] == word
  {
    gotoFn' := gotoFn;
    cGotoState' := cGotoState;
    ghost var grown := labels;
    cState := 0;
    var k := 0;
    assert word[..0] == [];
    while k < |word|
      invariant Inserting(labels, word, k, gotoFn', grown, cGotoState', cState)
    {
      var c := word[k];
      if c in gotoFn'[cState] {
        FollowStep(gotoFn', labels, grown, word, k, cGotoState', cState);
        cState := gotoFn'[cState][c];
      } else {
        CreateStep(gotoFn', labels, grown, word, k, cGotoState', cState);
        cGotoState' := cGotoState' + 1;
        gotoFn' := AddState(gotoFn', cState, c, cGotoState');
        grown := grown + [word[..k + 1]];
        cState := cGotoState';
      }
      k := k + 1;
    }
    InsertingDone(labels, word, gotoFn', grown, cGotoState', cState);
  }

  /** At the end of the word, the trie holds all of its prefixes. */
  lemma InsertingDone(labels: seq<string>, word: string, g: Goto, grown: seq<string>, top: State, at: State)
    requires Inserting(labels, word, |word|, g, grown, top, at)
    ensures IsTrie(g, Grow(labels, word)) && top + 1 == |Grow(labels, word)|
    ensures at < |Grow(labels, word)| && Grow(labels, word)[at] == word
  {
    assert word[..|word|] == word;
  }

  /** `outFn` records exactly the states whose labels are among `ws`,
      each with its label. */
  ghost predicate OutputsFor(outFn: map<State, string>, labels: seq<string>, ws: seq<string>) {
    && (forall s: State :: s in outFn <==> s < |labels| && labels[s] in ws)
    && (forall s :: s in outFn ==> outFn[s] == labels[s])
  }

  /** Inserting the next word leaves the recorded outputs where they
      were: the states it creates spell no word inserted before it. */
  lemma OutputsSurviveGrow(outFn: map<State, string>, labels: seq<string>, done: seq<string>, word: string)
    requires labels == TrieLabels(done) && GoodLabels(labels) && OutputsFor(outFn, labels, done)
    ensures GoodLabels(Grow(labels, word)) && OutputsFor(outFn, Grow(labels, word), done)
  {
    var grown := Grow(labels, word);
    GrowProperties(labels, word);
    WordsAreLabels(done);
    forall s: State | |labels| <= s < |grown|
      ensures grown[s] !in done
    {
      assert grown[s] !in labels;
    }
  }

  /** A word already among the distinct words before it is the first repeat. */
  lemma ClashIsFirstRepeat(ws: seq<string>, i: nat)
    requires i < |ws| && ws[i] in ws[..i] && Distinct(ws[..i])
    ensures FirstRepeat(ws) == Some(i)
  {
    var a :| 0 <= a < i && ws[..i][a] == ws[i];
    assert ws[a] == ws[i];
    assert !Distinct(ws);
    DistinctBefore(ws, i);
    var v := FirstRepeat(ws).value;
    var b :| 0 <= b < v && ws[b] == ws[v];
    assert v >= i;
    assert v <= i;
  }

  /** The words before `i` are distinct, read in the whole list. */
  lemma DistinctBefore(ws: seq<string>, i: nat)
    requires i <= |ws| && Distinct(ws[..i])
    ensures forall x, y :: 0 <= x < y < i ==> ws[x] != ws[y]
  {
    assert forall x :: 0 <= x < i ==> ws[..i][x] == ws[x];
  }

  /** A new word keeps a list distinct. */
  lemma DistinctSnoc(xs: seq<string>, x: string)
    requires Distinct(xs) && x !in xs
    ensures Distinct(xs + [x])
  {
  }

  /** Recording a word on its state when no earlier word ends there:
      the word is new, and the outputs cover one more word. */
  lemma RecordOutput(outFn: map<State, string>, labels: seq<string>, done: seq<string>, cState: State)
    requires GoodLabels(labels) && cState < |labels| && OutputsFor(outFn, labels, done)
    requires cState !in outFn
    ensures OutputsFor(outFn[cState := labels[cState]], labels, done + [labels[cState]])
  {
  }

  /** The constructor's blocking check: states in ascending order, the
      first one that ends a marker and still has transitions. */
  method FindBlocking(gotoFn: Goto, outFn: map<State, string>, cGotoState: State, ghost words: seq<string>)
    returns (found: Option<State>)
    requires IsTrie(gotoFn, TrieLabels(words)) && cGotoState + 1 == |TrieLabels(words)|
    requires forall s: State :: s in outFn <==> s < |TrieLabels(words)| && TrieLabels(words)[s] in words
    ensures found == FirstBlocking(words)
    ensures found.Some? ==> found.value in outFn
    ensures found.None? ==> forall s :: s in outFn ==> gotoFn[s] == map[]
  {
    ghost var labels := TrieLabels(words);
    var s: State := 0;
    while s <= cGotoState
      invariant s <= cGotoState + 1
      invariant forall t :: 0 <= t < s ==> !Blocking(words, labels[t])
    {
      BlockingState(gotoFn, outFn, words, s);
      if s in outFn && |gotoFn[s]| != 0 {
        FirstBlockingAt(words, s);
        return Some(s);
      }
      s := s + 1;
    }
    forall t | t in outFn
      ensures gotoFn[t] == map[]
    {
      BlockingState(gotoFn, outFn, words, t);
    }
    return None;
  }

  /** A state ends a marker and still has transitions exactly when its
      label is a blocking word. */
  lemma BlockingState(gotoFn: Goto, outFn: map<State, string>, words: seq<string>, s: State)
    requires IsTrie(gotoFn, TrieLabels(words)) && s < |TrieLabels(words)|
    requires forall s: State :: s in outFn <==> s < |TrieLabels(words)| && TrieLabels(words)[s] in words
    ensures (s in outFn && |gotoFn[s]| != 0) == Blocking(words, TrieLabels(words)[s])
    ensures s in outFn && !Blocking(words, TrieLabels(words)[s]) ==> gotoFn[s] == map[]
  {
    HasTransitionIffStrictPrefix(gotoFn, words, s);
  }

  /** A blocking state with no blocking state below it is the first. */
  lemma FirstBlockingAt(words: seq<string>, s: State)
    requires s < |TrieLabels(words)| && Blocking(words, TrieLabels(words)[s])
    requires forall t :: 0 <= t < s ==> !Blocking(words, TrieLabels(words)[t])
    ensures FirstBlocking(words) == Some(s)
  {
    var r := FirstBlocking(words);
    assert r.Some?;
    assert !(r.value < s);
    assert !(s < r.value);
  }

  /** The mode machine: text mode leaves on the two opening markers,
      code and output mode return on their closing ones. */
  method NewEmitter(cBeg: string, cEnd: string, oBeg: string, oEnd: string)
    returns (emitter: map<Mode, map<string, Transition>>)
    requires cBeg != oBeg
    ensures EmitterFor(emitter, Markers(cBeg, cEnd, oBeg, oEnd))
  {
    emitter := map[TextMode := map[], CodeMode := map[], OutputMode := map[]];
    emitter := emitter[TextMode := emitter[TextMode][cBeg := Transition(CodeMode, TextKind)]];
    emitter := emitter[TextMode := emitter[TextMode][oBeg := Transition(OutputMode, TextKind)]];
    emitter := emitter[CodeMode := emitter[CodeMode][cEnd := Transition(TextMode, CodeKind)]];
    emitter := emitter[OutputMode := emitter[OutputMode][oEnd := Transition(TextMode, OutputKind)]];
    ghost var m := Markers(cBeg, cEnd, oBeg, oEnd);
    assert emitter[TextMode].Keys == {cBeg, oBeg};
    assert emitter[CodeMode].Keys == {cEnd} && emitter[OutputMode].Keys == {oEnd};
    forall mode, w | mode in emitter
      ensures (w in emitter[mode] <==> Next(m, mode, w).Some?)
      ensures w in emitter[mode] ==> emitter[mode][w] == Next(m, mode, w).value
    {
    }
  }

  /** The detector after inserting the words `done`: the trie over
      them, numbered in creation order, `cGotoState` its last state, and
      each word recorded on its state. */
  ghost predicate DetectorFor(gotoFn: Goto, outFn: map<State, string>, cGotoState: State, done: seq<string>) {
    var labels := TrieLabels(done);
    && GoodLabels(labels) && IsTrie(gotoFn, labels) && cGotoState + 1 == |labels|
    && OutputsFor(outFn, labels, done)
  }

  /** One pass of the constructor's outer loop: insert `word`, then
      report a clash if its state already records a word, which happens
      exactly when the same word was inserted before. Words are non-empty,
      so a recorded word is never the empty (falsy) string and testing for
      a record is testing membership. */
  method AddMarker(gotoFn: Goto, outFn: map<State, string>, cGotoState: State, word: string, ghost done: seq<string>)
    returns (gotoFn': Goto, outFn': map<State, string>, cGotoState': State, clash: bool)
    requires word != [] && DetectorFor(gotoFn, outFn, cGotoState, done)
    ensures clash <==> word in done
    ensures !clash ==> DetectorFor(gotoFn', outFn', cGotoState', done + [word])
  {
    ghost var labels := TrieLabels(done);
    ghost var grown := Grow(labels, word);
    assert GoodLabels(grown) && OutputsFor(outFn, grown, done) by {
      OutputsSurviveGrow(outFn, labels, done, word);
    }
    var cState;
    gotoFn', cGotoState', cState := InsertWord(gotoFn, cGotoState, word, labels);
    outFn' := outFn;
    if cState in outFn {
      return gotoFn', outFn', cGotoState', true;
    }
    assert OutputsFor(outFn[cState := word], grown, done + [word]) by {
      RecordOutput(outFn, grown, done, cState);
    }
    outFn' := outFn[cState := word];
    assert grown == TrieLabels(done + [word]) by {
      assert (done + [word])[..|done|] == done;
    }
    clash := false;
  }

  /** The constructor's first part: insert the markers one after the
      other, stopping at the first marker that repeats an earlier one. */
  method BuildDetector(words: seq<string>)
    returns (gotoFn: Goto, outFn: map<State, string>, cGotoState: State, clash: Option<nat>)
    requires forall j :: 0 <= j < |words| ==> words[j] != []
    ensures clash == FirstRepeat(words)
    ensures clash.None? ==> DetectorFor(gotoFn, outFn, cGotoState, words)
  {
    gotoFn := map[0 := map[]];
    outFn := map[];
    cGotoState := 0;
    DetectorAtStart(words);
    var i := 0;
    while i < |words|
      invariant 0 <= i <= |words|
      invariant Distinct(words[..i])
      invariant DetectorFor(gotoFn, outFn, cGotoState, words[..i])
    {
      var clashed;
      gotoFn, outFn, cGotoState, clashed := AddMarker(gotoFn, outFn, cGotoState, words[i], words[..i]);
      if clashed {
        ClashIsFirstRepeat(words, i);
        return gotoFn, outFn, cGotoState, Some(i);
      }
      MarkerAdded(words, i, gotoFn, outFn, cGotoState);
      i := i + 1;
    }
    DetectorDone(words, gotoFn, outFn, cGotoState);
    clash := None;
  }

  /** After the last marker, without a clash: the markers are distinct
      and the tables are the detector for all of them. */
  lemma DetectorDone(words: seq<string>, gotoFn: Goto, outFn: map<State, string>, cGotoState: State)
    requires Distinct(words[..|words|]) && DetectorFor(gotoFn, outFn, cGotoState, words[..|words|])
    ensures FirstRepeat(words).None? && DetectorFor(gotoFn, outFn, cGotoState, words)
  {
    assert words[..|words|] == words;
  }

  /** Before the first marker: the root alone, recording nothing. */
  lemma DetectorAtStart(words: seq<string>)
    ensures DetectorFor(map[0 := map[]], map[], 0, words[..0])
  {
    assert words[..0] == [];
    TrieLabelsProperties([]);
  }

  /** A marker inserted without a clash extends the distinct markers done. */
  lemma MarkerAdded(words: seq<string>, i: nat, gotoFn: Goto, outFn: map<State, string>, cGotoState: State)
    requires i < |words| && Distinct(words[..i]) && words[i] !in words[..i]
    requires DetectorFor(gotoFn, outFn, cGotoState, words[..i] + [words[i]])
    ensures Distinct(words[..i + 1]) && DetectorFor(gotoFn, outFn, cGotoState, words[..i + 1])
  {
    assert words[..i + 1] == words[..i] + [words[i]];
    DistinctSnoc(words[..i], words[i]);
  }

  /** The constructor. A marker that ends on a state some earlier marker
      already ends on is a clash, reported for the first such marker;
      otherwise a marker whose state has outgoing transitions blocks the
      markers that extend it, reported for the lowest such state; otherwise
      the tables are built. */
  method NewSlicer(debugLen: int, cBeg: string, cEnd: string, oBeg: string, oEnd: string)
    returns (r: Result<Slicer>)
    requires debugLen >= 1
    requires cBeg != [] && cEnd != [] && oBeg != [] && oEnd != []
    ensures var m := Markers(cBeg, cEnd, oBeg, oEnd);
            var ws := Words(m);
      && (r.Success? ==> Built(r.value, m) && r.value.debugLen == debugLen)
      && (FirstRepeat(ws).Some? ==> r == Failure(MarkerClash(ws[FirstRepeat(ws).value])))
      && (FirstRepeat(ws).None? && FirstBlocking(ws).Some? ==>
            r == Failure(MarkerBlocks(TrieLabels(ws)[FirstBlocking(ws).value])))
      && (FirstRepeat(ws).None? && FirstBlocking(ws).None? ==> r.Success?)
  {
    var words := [cBeg, cEnd, oBeg, oEnd];
    var gotoFn, outFn, cGotoState, clash := BuildDetector(words);
    if clash.Some? {
      return Failure(MarkerClash(words[clash.value]));
    }
    var blocking := FindBlocking(gotoFn, outFn, cGotoState, words);
    if blocking.Some? {
      return Failure(MarkerBlocks(outFn[blocking.value]));
    }
    assert words[0] != words[2];
    var emitter := NewEmitter(cBeg, cEnd, oBeg, oEnd);
    r := Success(Slicer(debugLen, gotoFn, outFn, emitter));
  }

  /** Every marker, walked from the root, ends on the state that records it. */
  lemma MarkersReachOutputs(sl: Slicer, m: Markers)
    requires Built(sl, m)
    ensures forall w :: w in Words(m) ==>
              Walk(sl.gotoFn, w).Some? && Walk(sl.gotoFn, w).value in sl.outFn
              && sl.outFn[Walk(sl.gotoFn, w).value] == w
  {
    var labels := TrieLabels(Words(m));
    TrieLabelsProperties(Words(m));
    WordsAreLabels(Words(m));
    forall w | w in Words(m)
      ensures Walk(sl.gotoFn, w).Some? && Walk(sl.gotoFn, w).value in sl.outFn
              && sl.outFn[Walk(sl.gotoFn, w).value] == w
    {
      WalkReachesLabel(sl.gotoFn, labels, w);
    }
  }

  function Min(a: int, b: int): int {
    if a < b then a else b
  }

  /** Up to `n` characters of context before position `le`, followed by
      " >>> " when there are any. */
  function Before(input: string, le: nat, n: nat): string
    requires le <= |input|
  {
    if le > 0 then input[le - Min(n, le)..le] + " >>> " else ""
  }

  /** " <<< " followed by up to `n` characters of context from position
      `ind`, when there are any. */
  function After(input: string, ind: nat, n: nat): string
    requires ind <= |input|
  {
    if ind < |input| then " <<< " + input[ind..ind + Min(n, |input| - ind)] else ""
  }

  /** `errLoc`: the marker ending at `ind` (of length `len`) with up to
      `debugLen` characters of context on either side. */
  function ErrLoc(input: string, ind: int, len: int, debugLen: int): string
  {
    Lead(input, ind - len, debugLen) + JsSlice(input, ind - len, ind) + Trail(input, ind, debugLen)
  }

  /** The context in front of the marker, which starts at `le`, with its arrow. */
  function Lead(input: string, le: int, debugLen: int): string
  {
    var ls := if le - debugLen < 0 then 0 else le - debugLen;
    if le > ls then JsSlice(input, ls, le) + " >>> " else ""
  }

  /** The context after the marker, which ends at `ind`, with its arrow. */
  function Trail(input: string, ind: int, debugLen: int): string
  {
    var te := if ind + debugLen > |input| then |input| else ind + debugLen;
    if ind < te then " <<< " + JsSlice(input, ind, te) else ""
  }

  /** The context is clipped to the input, and each side is marked off by
      an arrow exactly when it is not empty. */
  lemma ErrLocClipped(input: string, ind: nat, len: nat, debugLen: nat)
    requires len <= ind <= |input| && debugLen >= 1
    ensures ErrLoc(input, ind, len, debugLen)
            == Before(input, ind - len, debugLen) + input[ind - len..ind] + After(input, ind, debugLen)
  {
    LeadClipped(input, ind - len, debugLen);
    TrailClipped(input, ind, debugLen);
    assert JsSlice(input, ind - len, ind) == input[ind - len..ind];
  }

  lemma LeadClipped(input: string, le: nat, debugLen: nat)
    requires le <= |input| && debugLen >= 1
    ensures Lead(input, le, debugLen) == Before(input, le, debugLen)
  {
    if le > 0 {
      var ls := if le - debugLen < 0 then 0 else le - debugLen;
      assert ls == le - Min(debugLen, le) && JsSlice(input, ls, le) == input[ls..le];
    }
  }

  lemma TrailClipped(input: string, ind: nat, debugLen: nat)
    requires ind <= |input| && debugLen >= 1
    ensures Trail(input, ind, debugLen) == After(input, ind, debugLen)
  {
    if ind < |input| {
      var te := if ind + debugLen > |input| then |input| else ind + debugLen;
      assert te == ind + Min(debugLen, |input| - ind) && JsSlice(input, ind, te) == input[ind..te];
    }
  }

  /** Context on both sides, clipped to the start of the input. */
  lemma ErrLocExamples()
    ensures ErrLoc("[>[!", 4, 2, 6) == "[> >>> [!"
    ensures ErrLoc("ab{{cd", 4, 2, 1) == "b >>> {{ <<< c"
    ensures ErrLoc("{{", 2, 2, 6) == "{{"
  {
    assert "[>[!"[0..2] == "[>" && "[>[!"[2..4] == "[!";
    assert "ab{{cd"[1..2] == "b" && "ab{{cd"[2..4] == "{{" && "ab{{cd"[4..5] == "c";
    assert "{{"[0..2] == "{{";
  }

  /** The messages of the templates in which a marker opens a block and
      a marker of the other kind follows, with the default `debugLen` of 6:
      the context is the opening marker, an arrow, and the stray marker. */
  lemma InsideMessages()
    ensures Message(Unexpected("[!", ErrLoc("[>[!", 4, 2, 6))) == "Unexpected \"[!\" marker: \"[> >>> [!\""
    ensures Message(Unexpected("[>", ErrLoc("[![>", 4, 2, 6))) == "Unexpected \"[>\" marker: \"[! >>> [>\""
    ensures Message(Unexpected("!]", ErrLoc("[>!]", 4, 2, 6))) == "Unexpected \"!]\" marker: \"[> >>> !]\""
    ensures Message(Unexpected("<]", ErrLoc("[!<]", 4, 2, 6))) == "Unexpected \"<]\" marker: \"[! >>> <]\""
  {
    InsideContexts();
    CodeInOutputText();
    OutputInCodeText();
    CodeEndInOutputText();
    OutputEndInCodeText();
  }

  /** The contexts `ErrLoc` gives for those templates. */
  lemma InsideContexts()
    ensures ErrLoc("[>[!", 4, 2, 6) == "[> >>> [!" && ErrLoc("[![>", 4, 2, 6) == "[! >>> [>"
    ensures ErrLoc("[>!]", 4, 2, 6) == "[> >>> !]" && ErrLoc("[!<]", 4, 2, 6) == "[! >>> <]"
  {
    assert "[>[!"[0..2] == "[>" && "[>[!"[2..4] == "[!";
    assert "[![>"[0..2] == "[!" && "[![>"[2..4] == "[>";
    assert "[>!]"[0..2] == "[>" && "[>!]"[2..4] == "!]";
    assert "[!<]"[0..2] == "[!" && "[!<]"[2..4] == "<]";
  }

  /** The texts of those messages, one lemma each. */
  lemma CodeInOutputText()
    ensures Message(Unexpected("[!", "[> >>> [!")) == "Unexpected \"[!\" marker: \"[> >>> [!\""
  {
  }

  lemma OutputInCodeText()
    ensures Message(Unexpected("[>", "[! >>> [>")) == "Unexpected \"[>\" marker: \"[! >>> [>\""
  {
  }

  lemma CodeEndInOutputText()
    ensures Message(Unexpected("!]", "[> >>> !]")) == "Unexpected \"!]\" marker: \"[> >>> !]\""
  {
  }

  lemma OutputEndInCodeText()
    ensures Message(Unexpected("<]", "[! >>> <]")) == "Unexpected \"<]\" marker: \"[! >>> <]\""
  {
  }

  /** The messages of the templates that open a block and end: the
      context is the opening marker alone. */
  lemma UnclosedMessages()
    ensures Message(NotClosed(ErrLoc("[!", 2, 2, 6))) == "Marker not closed: \"[!\""
    ensures Message(NotClosed(ErrLoc("[>", 2, 2, 6))) == "Marker not closed: \"[>\""
  {
    assert "[!"[0..2] == "[!" && "[>"[0..2] == "[>";
  }

  /** The messages of the templates whose first marker closes a block:
      the context is the marker, after the line breaks and spaces in front
      of it when there are any. */
  lemma UnopenedMessages()
    ensures Message(Unexpected("!]", ErrLoc("!]", 2, 2, 6))) == "Unexpected \"!]\" marker: \"!]\""
    ensures Message(Unexpected("<]", ErrLoc("<]", 2, 2, 6))) == "Unexpected \"<]\" marker: \"<]\""
    ensures Message(Unexpected("<]", ErrLoc("\n\n  <]", 6, 2, 6))) == "Unexpected \"<]\" marker: \"\n\n   >>> <]\""
  {
    UnopenedContexts();
    StrayCodeEndText();
    StrayOutputEndText();
    LaterStrayOutputEndText();
  }

  /** The contexts `ErrLoc` gives for those templates. */
  lemma UnopenedContexts()
    ensures ErrLoc("!]", 2, 2, 6) == "!]" && ErrLoc("<]", 2, 2, 6) == "<]"
    ensures ErrLoc("\n\n  <]", 6, 2, 6) == "\n\n   >>> <]"
  {
    assert "!]"[0..2] == "!]" && "<]"[0..2] == "<]";
    assert "\n\n  <]"[0..4] == "\n\n  " && "\n\n  <]"[4..6] == "<]";
  }

  /** The texts of those messages, one lemma each. */
  lemma StrayCodeEndText()
    ensures Message(Unexpected("!]", "!]")) == "Unexpected \"!]\" marker: \"!]\""
  {
  }

  lemma StrayOutputEndText()
    ensures Message(Unexpected("<]", "<]")) == "Unexpected \"<]\" marker: \"<]\""
  {
  }

  lemma LaterStrayOutputEndText()
    ensures Message(Unexpected("<]", "\n\n   >>> <]")) == "Unexpected \"<]\" marker: \"\n\n   >>> <]\""
  {
  }

  /** The clash messages of the test suite: the marker named is the first
      one that repeats an earlier one. */
  lemma ClashMessages()
    ensures var ws := Words(Markers("m1", "m4", "m2", "m2"));
      FirstRepeat(ws).Some? && Message(MarkerClash(ws[FirstRepeat(ws).value])) == "Marker clash on \"m2\""
    ensures var ws := Words(Markers("m1", "m1", "m2", "m3"));
      FirstRepeat(ws).Some? && Message(MarkerClash(ws[FirstRepeat(ws).value])) == "Marker clash on \"m1\""
  {
    ClashAtThree();
    ClashAtOne();
    ClashTexts();
  }

  /** Among `m1, m4, m2, m2` the last word is the first repeat. */
  lemma ClashAtThree()
    ensures FirstRepeat(Words(Markers("m1", "m4", "m2", "m2"))) == Some(3)
  {
    var ws := Words(Markers("m1", "m4", "m2", "m2"));
    assert ws[..3][..2] == ["m1", "m4"] && ws[..3][..2][..1] == ["m1"] && ws[..3] == ["m1", "m4", "m2"];
  }

  /** Among `m1, m1, m2, m3` the second word is the first repeat. */
  lemma ClashAtOne()
    ensures FirstRepeat(Words(Markers("m1", "m1", "m2", "m3"))) == Some(1)
  {
    var ws := Words(Markers("m1", "m1", "m2", "m3"));
    assert ws[..3][..2] == ["m1", "m1"] && ws[..3][..2][..1] == ["m1"];
  }

  /** The texts of the clash messages. */
  lemma ClashTexts()
    ensures Message(MarkerClash("m2")) == "Marker clash on \"m2\""
    ensures Message(MarkerClash("m1")) == "Marker clash on \"m1\""
  {
  }

  /** The block messages of the test suite: for each of its four marker
      sets the markers are distinct, the lowest blocking state is the one
      the suite names, and the message is the text it expects. The
      `...Blocking` lemmas say which labels block; the `BlockOn...` lemmas
      place the first blocking state. */
  lemma BlockMessageOnCodeBegin()
    ensures var ws := Words(Markers("a", "ab", "abc", "abcd"));
      && FirstRepeat(ws).None? && FirstBlocking(ws).Some?
      && Message(MarkerBlocks(TrieLabels(ws)[FirstBlocking(ws).value])) == "Marker \"a\" blocks other markers"
  {
    LabelsBlockOnCodeBegin();
    BlockOnCodeBegin();
    BlockTextA();
  }

  lemma BlockMessageOnCodeEnd()
    ensures var ws := Words(Markers("a1", "ab", "abc", "abcd"));
      && FirstRepeat(ws).None? && FirstBlocking(ws).Some?
      && Message(MarkerBlocks(TrieLabels(ws)[FirstBlocking(ws).value])) == "Marker \"ab\" blocks other markers"
  {
    LabelsBlockOnCodeEnd();
    BlockOnCodeEnd();
    BlockTextAb();
  }

  lemma BlockMessageOnOutputBegin()
    ensures var ws := Words(Markers("a1", "a2", "abc", "abcd"));
      && FirstRepeat(ws).None? && FirstBlocking(ws).Some?
      && Message(MarkerBlocks(TrieLabels(ws)[FirstBlocking(ws).value])) == "Marker \"abc\" blocks other markers"
  {
    LabelsBlockOnOutputBegin();
    BlockOnOutputBegin();
    BlockTextAbc();
  }

  lemma BlockMessageOnOutputEnd()
    ensures var ws := Words(Markers("a1", "a2", "abcd", "abc"));
      && FirstRepeat(ws).None? && FirstBlocking(ws).Some?
      && Message(MarkerBlocks(TrieLabels(ws)[FirstBlocking(ws).value])) == "Marker \"abc\" blocks other markers"
  {
    LabelsBlockOnOutputEnd();
    BlockOnOutputEnd();
    BlockTextAbc();
  }

  lemma CodeBeginBlocking()
    ensures var ws := ["a", "ab", "abc", "abcd"];
      Blocking(ws, "a") && !Blocking(ws, "")
  {
    var ws := ["a", "ab", "abc", "abcd"];
    assert IsStrictPrefix("a", ws[1]) by { assert "ab"[..1] == "a"; }
  }

  lemma BlockOnCodeBegin()
    ensures FirstBlocking(["a", "ab", "abc", "abcd"]) == Some(1)
  {
    LabelsBlockOnCodeBegin();
    CodeBeginBlocking();
    FirstBlockingAt(["a", "ab", "abc", "abcd"], 1);
  }

  lemma CodeEndBlocking()
    ensures var ws := ["a1", "ab", "abc", "abcd"];
      Blocking(ws, "ab") && !Blocking(ws, "") && !Blocking(ws, "a") && !Blocking(ws, "a1")
  {
    var ws := ["a1", "ab", "abc", "abcd"];
    assert IsStrictPrefix("ab", ws[2]) by { assert "abc"[..2] == "ab"; }
    forall j | 0 <= j < |ws| ensures !IsStrictPrefix("a1", ws[j]) {
      assert |ws[j]| <= 2 || ws[j][..2] == "ab";
    }
  }

  lemma BlockOnCodeEnd()
    ensures FirstBlocking(["a1", "ab", "abc", "abcd"]) == Some(3)
  {
    LabelsBlockOnCodeEnd();
    CodeEndBlocking();
    FirstBlockingAt(["a1", "ab", "abc", "abcd"], 3);
  }

  lemma OutputBeginBlocking()
    ensures var ws := ["a1", "a2", "abc", "abcd"];
      Blocking(ws, "abc") && !Blocking(ws, "") && !Blocking(ws, "a") && !Blocking(ws, "ab") && !Blocking(ws, "a1") && !Blocking(ws, "a2")
  {
    var ws := ["a1", "a2", "abc", "abcd"];
    assert IsStrictPrefix("abc", ws[3]) by { assert "abcd"[..3] == "abc"; }
    forall j | 0 <= j < |ws| ensures !IsStrictPrefix("a1", ws[j]) && !IsStrictPrefix("a2", ws[j]) {
      assert |ws[j]| <= 2 || ws[j][..2] == "ab";
    }
  }

  lemma BlockOnOutputBegin()
    ensures FirstBlocking(["a1", "a2", "abc", "abcd"]) == Some(5)
  {
    LabelsBlockOnOutputBegin();
    OutputBeginBlocking();
    FirstBlockingAt(["a1", "a2", "abc", "abcd"], 5);
  }

  lemma OutputEndBlocking()
    ensures var ws := ["a1", "a2", "abcd", "abc"];
      Blocking(ws, "abc") && !Blocking(ws, "") && !Blocking(ws, "a") && !Blocking(ws, "ab") && !Blocking(ws, "a1") && !Blocking(ws, "a2")
  {
    var ws := ["a1", "a2", "abcd", "abc"];
    assert IsStrictPrefix("abc", ws[2]) by { assert "abcd"[..3] == "abc"; }
    forall j | 0 <= j < |ws| ensures !IsStrictPrefix("a1", ws[j]) && !IsStrictPrefix("a2", ws[j]) {
      assert |ws[j]| <= 2 || ws[j][..2] == "ab";
    }
  }

  lemma BlockOnOutputEnd()
    ensures FirstBlocking(["a1", "a2", "abcd", "abc"]) == Some(5)
  {
    LabelsBlockOnOutputEnd();
    OutputEndBlocking();
    FirstBlockingAt(["a1", "a2", "abcd", "abc"], 5);
  }

  /** The texts of the block messages. */
  lemma BlockTextA()
    ensures Message(MarkerBlocks("a")) == "Marker \"a\" blocks other markers"
  {
  }

  lemma BlockTextAb()
    ensures Message(MarkerBlocks("ab")) == "Marker \"ab\" blocks other markers"
  {
  }

  lemma BlockTextAbc()
    ensures Message(MarkerBlocks("abc")) == "Marker \"abc\" blocks other markers"
  {
  }

  /** The text of the error for a negative `debugLen`. */
  lemma DebugLenMessage()
    ensures Message(BadDebugLen) == "debugLen option must be >= 1"
  {
  }

  /** The text the slices were cut from: each piece followed by the
      marker that closed it. */
  function Interleave(pieces: seq<string>, closers: seq<string>): string
    requires |pieces| == |closers|
    decreases |pieces|
  {
    if pieces == [] then []
    else
      var n := |pieces| - 1;
      Interleave(pieces[..n], closers[..n]) + pieces[n] + closers[n]
  }

  /** Where each closing marker ends in the text `Interleave` spells. */
  function Ends(pieces: seq<string>, closers: seq<string>): (r: seq<nat>)
    requires |pieces| == |closers|
    ensures |r| == |pieces|
    decreases |pieces|
  {
    if pieces == [] then []
    else
      var n := |pieces| - 1;
      Ends(pieces[..n], closers[..n]) + [|Interleave(pieces, closers)|]
  }

  /** The mode the slicer is in after the given markers closed slices. */
  function ModeAfter(m: Markers, closers: seq<string>): Mode {
    if |closers| % 2 == 0 then TextMode
    else if closers[|closers| - 1] == m.codeBegin then CodeMode
    else OutputMode
  }

  /** The factory that made slice `k`: text at even positions, then code
      or output according to the opening marker before it. */
  function KindAt(m: Markers, closers: seq<string>, k: nat): Kind
    requires k <= |closers|
  {
    if k % 2 == 0 then TextKind
    else if closers[k - 1] == m.codeBegin then CodeKind
    else OutputKind
  }

  /** The marker at position `k` is one the alternation allows there: an
      opening marker at even positions, the closing marker matching the
      one before it at odd positions. */
  ghost predicate FitsAt(m: Markers, closers: seq<string>, k: nat)
    requires k < |closers|
  {
    if k % 2 == 0 then closers[k] == m.codeBegin || closers[k] == m.outputBegin
    else closers[k] == (if closers[k - 1] == m.codeBegin then m.codeEnd else m.outputEnd)
  }

  /** The markers that closed slices came in the only order the mode
      machine allows: an opening marker, the closing marker matching it,
      an opening marker, and so on. */
  ghost predicate Alternates(m: Markers, closers: seq<string>) {
    forall k :: 0 <= k < |closers| ==> FitsAt(m, closers, k)
  }

  /** The mode machine and the alternation agree: a marker is a legal
      move exactly when it continues the alternation, and the move enters
      the mode and uses the factory the alternation predicts. */
  lemma {:induction false} NextAlternates(m: Markers, closers: seq<string>, w: string)
    requires Alternates(m, closers)
    ensures Next(m, ModeAfter(m, closers), w).Some? <==> Alternates(m, closers + [w])
    ensures Next(m, ModeAfter(m, closers), w).Some? ==>
              Next(m, ModeAfter(m, closers), w).value
              == Transition(ModeAfter(m, closers + [w]), KindAt(m, closers + [w], |closers|))
  {
    var c' := closers + [w];
    var n := |closers|;
    forall k | 0 <= k < n
      ensures FitsAt(m, c', k) == FitsAt(m, closers, k)
    {
      assert c'[k] == closers[k];
      if k > 0 {
        assert c'[k - 1] == closers[k - 1];
      }
    }
    assert Alternates(m, c') <==> FitsAt(m, c', n);
    assert c'[n] == w;
    if n % 2 == 1 {
      assert FitsAt(m, closers, n - 1);
      assert c'[n - 1] == closers[n - 1];
    }
  }

  /** No marker occurs anywhere in `s`. */
  predicate NoMarkerIn(ws: seq<string>, s: string) {
    forall i, j :: 0 <= i <= j <= |s| ==> s[i..j] !in ws
  }

  /** One detector step over a slicer's trie: if the state before it
      spells at most `room` characters or records a marker (which has no
      way out), the state after spells at most `room + 1`. */
  lemma DetectorStepBound(sl: Slicer, m: Markers, d: State, c: char, room: nat)
    requires Built(sl, m) && Closed(sl.gotoFn) && d < |TrieLabels(Words(m))|
    requires d !in sl.outFn ==> |TrieLabels(Words(m))[d]| <= room
    ensures d in sl.gotoFn
    ensures var e := Step(sl.gotoFn, d, c);
      e < |TrieLabels(Words(m))| && |TrieLabels(Words(m))[e]| <= room + 1
  {
    var labels := TrieLabels(Words(m));
    TrieLabelsProperties(Words(m));
    var g := sl.gotoFn;
    var from := if d > 0 && c !in g[d] then 0 else d;
    assert from != 0 ==> c in g[from] && from !in sl.outFn;
    if c in g[from] {
      assert labels[g[from][c]] == labels[from] + [c];
    }
  }

  /** The slicer's progress: the slices made so far, from the pieces
      and markers that spell the template up to `lIndex`, in alternation. */
  ghost predicate Cut(m: Markers, input: string, lIndex: nat, rVal: seq<Slice>, pieces: seq<string>, closers: seq<string>) {
    && |pieces| == |closers| == |rVal| && lIndex <= |input|
    && Interleave(pieces, closers) == input[..lIndex]
    && Alternates(m, closers)
    && forall k :: 0 <= k < |rVal| ==> rVal[k] == MakeSlice(KindAt(m, closers, k), pieces[k])
  }

  /** A legal move on a marker that ends at `cIndex` extends the cut:
      the text since the last move becomes a slice made by the move's
      factory, and the slicer enters the move's mode. */
  lemma CutStep(m: Markers, input: string, lIndex: nat, rVal: seq<Slice>, pieces: seq<string>,
                closers: seq<string>, cIndex: nat, w: string, t: Transition)
    requires Cut(m, input, lIndex, rVal, pieces, closers)
    requires lIndex + |w| <= cIndex <= |input| && input[cIndex - |w|..cIndex] == w
    requires Next(m, ModeAfter(m, closers), w) == Some(t)
    ensures var piece := input[lIndex..cIndex - |w|];
      && Cut(m, input, cIndex, rVal + [MakeSlice(t.factory, piece)], pieces + [piece], closers + [w])
      && t.to == ModeAfter(m, closers + [w])
  {
    var piece := input[lIndex..cIndex - |w|];
    NextAlternates(m, closers, w);
    assert (pieces + [piece])[..|pieces|] == pieces && (closers + [w])[..|closers|] == closers;
    assert input[..cIndex] == input[..lIndex] + piece + w;
    var c' := closers + [w];
    assert forall k :: 0 <= k < |closers| ==> KindAt(m, c', k) == KindAt(m, closers, k);
  }

  /** A marker ending at `n` is a marker occurring in the input. */
  lemma MarkerSeen(ws: seq<string>, input: string, n: nat, w: string)
    requires |w| <= n <= |input| && input[n - |w|..n] == w && w in ws
    ensures !NoMarkerIn(ws, input)
  {
  }

  /** One character read by the scanning loop: the new detector state is
      the state after the longer prefix; it spells at most what was read
      since the last move, and when it records a marker, that marker ends
      exactly here. */
  lemma DetectStep(sl: Slicer, m: Markers, input: string, lIndex: nat, cIndex: nat, d: State)
    requires Built(sl, m) && Closed(sl.gotoFn) && lIndex <= cIndex < |input|
    requires d == DState(sl.gotoFn, input[..cIndex]) && d < |TrieLabels(Words(m))|
    requires d !in sl.outFn ==> |TrieLabels(Words(m))[d]| <= cIndex - lIndex
    ensures d in sl.gotoFn
    ensures var e := Step(sl.gotoFn, d, input[cIndex]);
            var labels := TrieLabels(Words(m));
      && e == DState(sl.gotoFn, input[..cIndex + 1]) && e < |labels|
      && (e !in sl.outFn ==> |labels[e]| <= cIndex + 1 - lIndex)
      && (e in sl.outFn ==>
            && lIndex + |sl.outFn[e]| <= cIndex + 1
            && input[cIndex + 1 - |sl.outFn[e]|..cIndex + 1] == sl.outFn[e]
            && sl.outFn[e] in Words(m))
  {
    DetectorStepBound(sl, m, d, input[cIndex], cIndex - lIndex);
    DStateSnoc(sl.gotoFn, input, cIndex);
    var e := Step(sl.gotoFn, d, input[cIndex]);
    if e in sl.outFn {
      MarkerEndsHere(sl, m, input, cIndex + 1, e);
    }
  }

  /** The state after `n + 1` characters is one step from the state after `n`. */
  lemma DStateSnoc(g: Goto, input: string, n: nat)
    requires Closed(g) && n < |input|
    ensures DState(g, input[..n + 1]) == Step(g, DState(g, input[..n]), input[n])
  {
    assert input[..n + 1][..n] == input[..n];
  }

  /** A state that records a marker is reached only right after that marker. */
  lemma MarkerEndsHere(sl: Slicer, m: Markers, input: string, n: nat, e: State)
    requires Built(sl, m) && Closed(sl.gotoFn) && n <= |input|
    requires e == DState(sl.gotoFn, input[..n]) && e in sl.outFn
    ensures |sl.outFn[e]| <= n && input[n - |sl.outFn[e]|..n] == sl.outFn[e] && sl.outFn[e] in Words(m)
  {
    var labels := TrieLabels(Words(m));
    RootLabel(Words(m));
    DetectorSpellsSuffix(sl.gotoFn, labels, input[..n]);
    var w := sl.outFn[e];
    assert w == labels[e];
    assert input[..n][n - |w|..] == input[n - |w|..n];
  }

  /** The last slice, text made of everything after the last move,
      completes the cut: the pieces and markers spell the whole template. */
  lemma FinishCut(m: Markers, input: string, lIndex: nat, rVal: seq<Slice>, pieces: seq<string>, closers: seq<string>)
    requires Cut(m, input, lIndex, rVal, pieces, closers) && |closers| % 2 == 0
    ensures var pieces' := pieces + [input[lIndex..]];
            var rVal' := rVal + [MakeText(input[lIndex..])];
      && input == Interleave(pieces'[..|closers|], closers) + pieces'[|closers|]
      && forall k :: 0 <= k < |pieces'| ==> rVal'[k] == MakeSlice(KindAt(m, closers, k), pieces'[k])
  {
    var pieces' := pieces + [input[lIndex..]];
    assert pieces'[..|closers|] == pieces;
    assert input == input[..lIndex] + input[lIndex..];
  }

  /** What scanning needs of the tables: the detector never leaves its
      states and its root records no marker, every mode has a row in the
      emitter, and text mode has moves, each of which closes a Text slice. */
  ghost predicate Runnable(sl: Slicer) {
    && Closed(sl.gotoFn)
    && (0 in sl.outFn ==> sl.outFn[0] == [])
    && sl.emitter.Keys == {TextMode, CodeMode, OutputMode}
    && sl.emitter[TextMode] != map[]
    && forall w :: w in sl.emitter[TextMode] ==> sl.emitter[TextMode][w].factory == TextKind
  }

  lemma BuiltIsRunnable(sl: Slicer, m: Markers)
    requires Built(sl, m)
    ensures Runnable(sl)
  {
    TrieIsClosed(sl.gotoFn, TrieLabels(Words(m)));
    RootLabel(Words(m));
    assert [] !in Words(m);
    assert m.codeBegin in sl.emitter[TextMode];
  }

  /** The variables of `slice()` between two characters: the detector's
      state, the mode, where the current slice starts, the length of the
      last marker detected and the slices made so far; with them, the
      pieces handed to the factories and the markers that closed them. */
  datatype Scan = Scan(dState: State, cState: Mode, lIndex: nat, lastLen: nat,
                       rVal: seq<Slice>, pieces: seq<string>, closers: seq<string>)

  /** One round of the scanning loop, reading `input[i]`: the detector
      takes its step; if it reaches a state recording a marker, the mode
      machine makes its move on it (the text since the last move becomes a
      slice by the move's factory) or the marker is reported as unexpected. */
  function ScanStep(sl: Slicer, input: string, st: Scan, i: nat): (r: Result<Scan>)
    requires Runnable(sl) && st.dState in sl.gotoFn && i < |input|
    ensures r.Success? ==> r.value.dState in sl.gotoFn
    ensures r.Failure? ==> r.error.Unexpected?
  {
    var cIndex := i + 1;
    var dState := Step(sl.gotoFn, st.dState, input[i]);
    if dState !in sl.outFn || sl.outFn[dState] == [] then Success(st.(dState := dState))
    else
      var mWord := sl.outFn[dState];
      assert st.cState.TextMode? || st.cState.CodeMode? || st.cState.OutputMode?;
      if mWord in sl.emitter[st.cState] then
        var t := sl.emitter[st.cState][mWord];
        var piece := JsSlice(input, st.lIndex, cIndex - |mWord|);
        Success(Scan(dState, t.to, cIndex, |mWord|, st.rVal + [MakeSlice(t.factory, piece)],
                     st.pieces + [piece], st.closers + [mWord]))
      else
        Failure(Unexpected(mWord, ErrLoc(input, cIndex, |mWord|, sl.debugLen)))
  }

  /** The loop's variables after the first `k` characters, or the error
      that stopped it. */
  function ScanAfter(sl: Slicer, input: string, k: nat): (r: Result<Scan>)
    requires Runnable(sl) && k <= |input|
    ensures r.Success? ==> r.value.dState in sl.gotoFn
    ensures r.Failure? ==> r.error.Unexpected?
    decreases k
  {
    if k == 0 then Success(Scan(0, TextMode, 0, 0, [], [], []))
    else
      var prev := ScanAfter(sl, input, k - 1);
      if prev.Failure? then prev else ScanStep(sl, input, prev.value, k - 1)
  }

  /** A round that starts from a running loop is one `ScanStep`. */
  lemma ScanAfterNext(sl: Slicer, input: string, k: nat)
    requires Runnable(sl) && k < |input| && ScanAfter(sl, input, k).Success?
    ensures ScanAfter(sl, input, k + 1) == ScanStep(sl, input, ScanAfter(sl, input, k).value, k)
  {
  }

  /** Once the loop has stopped, it stays stopped with the same error. */
  lemma {:induction false} FailureSticks(sl: Slicer, input: string, k: nat, n: nat)
    requires Runnable(sl) && k <= n <= |input| && ScanAfter(sl, input, k).Failure?
    ensures ScanAfter(sl, input, n) == ScanAfter(sl, input, k)
    decreases n - k
  {
    if n > k {
      FailureSticks(sl, input, k, n - 1);
    }
  }

  /** `slice()` on a whole template: a template that ends outside text
      mode is reported as not closed; otherwise the rest of it becomes the
      last slice, made by one of text mode's moves, all of which make Text. */
  function Sliced(sl: Slicer, input: string): (r: Result<seq<Slice>>)
    requires Runnable(sl)
    ensures r.Failure? ==> r.error.Unexpected? || r.error.NotClosed?
  {
    var s := ScanAfter(sl, input, |input|);
    if s.Failure? then Failure(s.error)
    else if s.value.cState != TextMode then
      Failure(NotClosed(ErrLoc(input, s.value.lIndex, s.value.lastLen, sl.debugLen)))
    else Success(s.value.rVal + [MakeText(JsSlice(input, s.value.lIndex, |input|))])
  }

  /** Text mode has a move, and every move out of it makes a Text slice. */
  lemma TextMoves(sl: Slicer)
    requires Runnable(sl)
    ensures sl.emitter[TextMode].Values != {}
    ensures forall t :: t in sl.emitter[TextMode].Values ==> t.factory == TextKind
  {
    var w :| w in sl.emitter[TextMode];
    assert sl.emitter[TextMode][w] in sl.emitter[TextMode].Values;
    forall t | t in sl.emitter[TextMode].Values
      ensures t.factory == TextKind
    {
      var v :| v in sl.emitter[TextMode] && sl.emitter[TextMode][v] == t;
    }
  }

  /** One round of the loop, reading `input[i]` with the loop's variables
      in `st`: the detector's step with its reset on failure, then the mode
      machine's move on a recorded marker; a marker that is not a move of
      the current mode stops the loop. */
  method Round(sl: Slicer, input: string, i: nat, st: Scan) returns (r: Result<Scan>)
    requires Runnable(sl) && st.dState in sl.gotoFn && i < |input|
    ensures r == ScanStep(sl, input, st, i)
  {
    var c := input[i];
    var cIndex := i + 1;
    var dState := st.dState;
    if dState > 0 && c !in sl.gotoFn[dState] {
      dState := 0;
    }
    if c !in sl.gotoFn[dState] {
      assert dState == 0 == Step(sl.gotoFn, st.dState, c);
      return Success(st.(dState := dState));
    }
    dState := sl.gotoFn[dState][c];
    assert dState == Step(sl.gotoFn, st.dState, c);
    if dState !in sl.outFn || sl.outFn[dState] == [] {
      return Success(st.(dState := dState));
    }
    var mWord := sl.outFn[dState];
    var lastLen := |mWord|;
    assert st.cState.TextMode? || st.cState.CodeMode? || st.cState.OutputMode?;
    if mWord !in sl.emitter[st.cState] {
      return Failure(Unexpected(mWord, ErrLoc(input, cIndex, lastLen, sl.debugLen)));
    }
    var lStop: int := cIndex - lastLen;
    var nTransition := sl.emitter[st.cState][mWord];
    var piece := JsSlice(input, st.lIndex, lStop);
    r := Success(Scan(dState, nTransition.to, cIndex, lastLen, st.rVal + [MakeSlice(nTransition.factory, piece)],
                      st.pieces + [piece], st.closers + [mWord]));
  }

  /** `slice()`: the scanning loop, one round per character, then the
      last slice; the result is exactly `Sliced`. */
  method SliceTemplate(sl: Slicer, input: string) returns (r: Result<seq<Slice>>)
    requires Runnable(sl)
    ensures r == Sliced(sl, input)
  {
    var st := Scan(0, TextMode, 0, 0, [], [], []);
    var cIndex: nat := 0;
    while cIndex < |input|
      invariant cIndex <= |input|
      invariant ScanAfter(sl, input, cIndex) == Success(st)
    {
      ScanAfterNext(sl, input, cIndex);
      var next := Round(sl, input, cIndex, st);
      cIndex := cIndex + 1;
      if next.Failure? {
        FailureSticks(sl, input, cIndex, |input|);
        return Failure(next.error);
      }
      st := next.value;
    }
    if st.cState != TextMode {
      return Failure(NotClosed(ErrLoc(input, st.lIndex, st.lastLen, sl.debugLen)));
    }
    TextMoves(sl);
    var lTransition :| lTransition in sl.emitter[TextMode].Values;
    r := Success(st.rVal + [MakeSlice(lTransition.factory, JsSlice(input, st.lIndex, |input|))]);
  }

  /** The detector records a marker after reading `input[..j]`. */
  ghost predicate Recorded(sl: Slicer, input: string, j: int) {
    Closed(sl.gotoFn) && 0 <= j <= |input| && DState(sl.gotoFn, input[..j]) in sl.outFn
  }

  /** The detector records the marker `w` after reading `input[..j]`. */
  ghost predicate RecordedAs(sl: Slicer, input: string, j: int, w: string) {
    Recorded(sl, input, j) && sl.outFn[DState(sl.gotoFn, input[..j])] == w
  }

  /** The detector records no marker after reading `input[..j]`, for
      any `j` with `from < j <= to`. */
  ghost predicate Quiet(sl: Slicer, input: string, from: nat, to: int) {
    Closed(sl.gotoFn) && to <= |input|
    && forall j :: from < j <= to ==> !Recorded(sl, input, j)
  }

  /** Within the text the pieces and markers spell, the detector records
      a marker only at the end of one of the closing markers. */
  ghost predicate OnlyAtEnds(sl: Slicer, input: string, pieces: seq<string>, closers: seq<string>)
    requires |pieces| == |closers|
  {
    forall j :: 0 < j <= |Interleave(pieces, closers)| && Recorded(sl, input, j) ==> j in Ends(pieces, closers)
  }

  /** At the end of each closing marker the detector records that marker. */
  ghost predicate AtEachEnd(sl: Slicer, input: string, pieces: seq<string>, closers: seq<string>)
    requires |pieces| == |closers|
  {
    forall k :: 0 <= k < |closers| ==>
      0 < Ends(pieces, closers)[k] <= |Interleave(pieces, closers)|
      && RecordedAs(sl, input, Ends(pieces, closers)[k], closers[k])
  }

  /** The moves were made exactly where the detector recorded a marker:
      in the text the pieces and markers spell, the detector records a
      marker only at the end of one of the closing markers, and at the end
      of each it records that very marker. */
  ghost predicate MarkedAt(sl: Slicer, input: string, pieces: seq<string>, closers: seq<string>) {
    && Closed(sl.gotoFn) && |pieces| == |closers| && |Interleave(pieces, closers)| <= |input|
    && OnlyAtEnds(sl, input, pieces, closers) && AtEachEnd(sl, input, pieces, closers)
  }

  /** One more piece and closing marker extend the spelled text and the
      marker ends at the back. */
  lemma SpellGrow(pieces: seq<string>, closers: seq<string>, x: string, w: string)
    requires |pieces| == |closers|
    ensures Interleave(pieces + [x], closers + [w]) == Interleave(pieces, closers) + x + w
    ensures Ends(pieces + [x], closers + [w]) == Ends(pieces, closers) + [|Interleave(pieces, closers)| + |x| + |w|]
  {
    InterleaveSnoc(pieces, closers, x, w);
    EndsSnoc(pieces, closers, x, w);
  }

  lemma InterleaveSnoc(pieces: seq<string>, closers: seq<string>, x: string, w: string)
    requires |pieces| == |closers|
    ensures Interleave(pieces + [x], closers + [w]) == Interleave(pieces, closers) + x + w
  {
    var n := |pieces|;
    assert (pieces + [x])[..n] == pieces && (closers + [w])[..n] == closers;
  }

  lemma EndsSnoc(pieces: seq<string>, closers: seq<string>, x: string, w: string)
    requires |pieces| == |closers|
    ensures Ends(pieces + [x], closers + [w]) == Ends(pieces, closers) + [|Interleave(pieces + [x], closers + [w])|]
  {
    var n := |pieces|;
    assert (pieces + [x])[..n] == pieces && (closers + [w])[..n] == closers;
  }

  /** A move on the first marker recorded since the last move extends
      `MarkedAt` by the new piece and its closing marker. */
  lemma MarkedGrow(sl: Slicer, input: string, pieces: seq<string>, closers: seq<string>,
                   x: string, w: string, at: nat)
    requires MarkedAt(sl, input, pieces, closers)
    requires at == |Interleave(pieces, closers)| + |x| + |w| && w != [] && at <= |input|
    requires Quiet(sl, input, |Interleave(pieces, closers)|, at - 1) && RecordedAs(sl, input, at, w)
    ensures MarkedAt(sl, input, pieces + [x], closers + [w])
  {
    SpellGrow(pieces, closers, x, w);
    OnlyAtEndsGrow(sl, input, pieces, closers, x, w, at);
    AtEachEndGrow(sl, input, pieces, closers, x, w, at);
  }

  /** No marker recorded between the last cut and `at` keeps the recorded
      markers at the ends of the closing markers. */
  lemma OnlyAtEndsGrow(sl: Slicer, input: string, pieces: seq<string>, closers: seq<string>,
                       x: string, w: string, at: nat)
    requires |pieces| == |closers| && OnlyAtEnds(sl, input, pieces, closers)
    requires at == |Interleave(pieces, closers)| + |x| + |w|
    requires Quiet(sl, input, |Interleave(pieces, closers)|, at - 1)
    ensures OnlyAtEnds(sl, input, pieces + [x], closers + [w])
  {
    SpellGrow(pieces, closers, x, w);
  }

  /** The marker recorded at `at` closes the new piece. */
  lemma AtEachEndGrow(sl: Slicer, input: string, pieces: seq<string>, closers: seq<string>,
                      x: string, w: string, at: nat)
    requires |pieces| == |closers| && AtEachEnd(sl, input, pieces, closers)
    requires at == |Interleave(pieces, closers)| + |x| + |w| && w != []
    requires RecordedAs(sl, input, at, w)
    ensures AtEachEnd(sl, input, pieces + [x], closers + [w])
  {
    var p', c' := pieces + [x], closers + [w];
    SpellGrow(pieces, closers, x, w);
    forall k | 0 <= k < |c'|
      ensures 0 < Ends(p', c')[k] <= |Interleave(p', c')| && RecordedAs(sl, input, Ends(p', c')[k], c'[k])
    {
      if k < |closers| {
        assert Ends(p', c')[k] == Ends(pieces, closers)[k] && c'[k] == closers[k];
      }
    }
  }

  /** What holds after the first `k` characters of a template, for a
      slicer the constructor built from `m`: the detector is in the state
      for the text read, which spells no more than what was read since the
      last move unless it records a marker; the moves so far cut
      `input[..lIndex]` into pieces and alternating markers and made one
      slice of each piece; the mode is the one those markers lead to and,
      outside text mode, `lastLen` is the length of the last of them; and
      a move means that the template holds a marker. */
  ghost predicate Progress(sl: Slicer, m: Markers, input: string, k: nat, st: Scan) {
    var labels := TrieLabels(Words(m));
    && Closed(sl.gotoFn) && st.lIndex <= k <= |input|
    && st.dState == DState(sl.gotoFn, input[..k]) && st.dState < |labels|
    && (st.dState !in sl.outFn ==> |labels[st.dState]| <= k - st.lIndex)
    && Cut(m, input, st.lIndex, st.rVal, st.pieces, st.closers) && st.cState == ModeAfter(m, st.closers)
    && (st.cState != TextMode ==> st.lastLen == |st.closers[|st.closers| - 1]| && st.lastLen <= st.lIndex)
    && (st.closers != [] ==> !NoMarkerIn(Words(m), input))
  }

  /** What the loop keeps of the detector after the first `k` characters:
      the moves were made where the detector recorded a marker, and it has
      recorded none since the last of them. */
  ghost predicate Marks(sl: Slicer, input: string, k: nat, st: Scan) {
    MarkedAt(sl, input, st.pieces, st.closers) && Quiet(sl, input, st.lIndex, k)
  }

  /** How `slice()` stops on a marker that is not a move: the template
      starts with the pieces and the alternating markers of the moves made;
      the moves were made where the detector recorded a marker; after them
      the first marker the detector records ends at `at`, and it is not a
      move of the mode those markers lead to; the error names it with
      `errLoc` around it. */
  ghost predicate UnexpectedAt(sl: Slicer, m: Markers, input: string, pieces: seq<string>,
                               closers: seq<string>, at: nat, e: Error) {
    && |pieces| == |closers| && Alternates(m, closers) && IsPrefix(Interleave(pieces, closers), input)
    && e.Unexpected? && e.marker in Words(m)
    && FirstAfter(sl, input, pieces, closers, at, e.marker)
    && Next(m, ModeAfter(m, closers), e.marker).None?
    && e.context == ErrLoc(input, at, |e.marker|, sl.debugLen)
  }

  /** After the moves, the first marker the detector records is `w`, and
      it ends at `at`; the moves were made where it recorded a marker. */
  ghost predicate FirstAfter(sl: Slicer, input: string, pieces: seq<string>, closers: seq<string>, at: nat, w: string) {
    && |pieces| == |closers| && MarkedAt(sl, input, pieces, closers)
    && Quiet(sl, input, |Interleave(pieces, closers)|, at - 1) && RecordedAs(sl, input, at, w)
    && w != [] && |Interleave(pieces, closers)| + |w| <= at <= |input| && input[at - |w|..at] == w
  }

  /** How `slice()` stops on a template that ends inside a region: the
      template is the pieces and alternating markers of the moves made,
      then unfinished text in which the detector records no marker; the
      moves were made where it recorded one; the last marker opened the
      region; the error gives `errLoc` around that marker. */
  ghost predicate NotClosedAt(sl: Slicer, m: Markers, input: string, pieces: seq<string>,
                              closers: seq<string>, e: Error) {
    && |pieces| == |closers| && Alternates(m, closers) && IsPrefix(Interleave(pieces, closers), input)
    && MarkedAt(sl, input, pieces, closers) && Quiet(sl, input, |Interleave(pieces, closers)|, |input|)
    && |closers| % 2 == 1
    && e.NotClosed?
    && e.context == ErrLoc(input, |Interleave(pieces, closers)|, |closers[|closers| - 1]|, sl.debugLen)
  }

  /** `Progress` holds before the first character. */
  lemma ProgressAtStart(sl: Slicer, m: Markers, input: string)
    requires Built(sl, m) && Runnable(sl)
    ensures Progress(sl, m, input, 0, Scan(0, TextMode, 0, 0, [], [], []))
    ensures Marks(sl, input, 0, Scan(0, TextMode, 0, 0, [], [], []))
  {
    RootLabel(Words(m));
    assert [] !in Words(m);
    assert input[..0] == [];
  }

  /** A round in which the detector records no marker keeps `Progress`. */
  lemma QuietStep(sl: Slicer, m: Markers, input: string, st: Scan, i: nat)
    requires Runnable(sl) && Progress(sl, m, input, i, st) && i < |input|
    requires var e := Step(sl.gotoFn, st.dState, input[i]);
      && e == DState(sl.gotoFn, input[..i + 1]) && e < |TrieLabels(Words(m))| && e !in sl.outFn
      && |TrieLabels(Words(m))[e]| <= i + 1 - st.lIndex
    ensures ScanStep(sl, input, st, i).Success?
    ensures Progress(sl, m, input, i + 1, ScanStep(sl, input, st, i).value)
  {
  }

  /** A round in which the detector records no marker keeps `Marks`. */
  lemma QuietMarks(sl: Slicer, input: string, st: Scan, i: nat)
    requires Runnable(sl) && Marks(sl, input, i, st) && i < |input| && st.dState in sl.gotoFn
    requires Step(sl.gotoFn, st.dState, input[i]) == DState(sl.gotoFn, input[..i + 1])
    requires Step(sl.gotoFn, st.dState, input[i]) !in sl.outFn
    ensures ScanStep(sl, input, st, i).Success?
    ensures Marks(sl, input, i + 1, ScanStep(sl, input, st, i).value)
  {
    assert !Recorded(sl, input, i + 1);
  }

  /** What `ScanStep` computes when the detector records a marker `w`
      that is a move of the current mode: the text since the last move,
      cut with the bounds the source uses, becomes the new slice. */
  lemma ScanStepMoves(sl: Slicer, input: string, st: Scan, i: nat, w: string)
    requires Runnable(sl) && st.dState in sl.gotoFn && i < |input|
    requires var e := Step(sl.gotoFn, st.dState, input[i]);
      e in sl.outFn && sl.outFn[e] == w && w != []
    requires st.cState in sl.emitter && st.lIndex + |w| <= i + 1 && w in sl.emitter[st.cState]
    ensures var t := sl.emitter[st.cState][w];
      var piece := input[st.lIndex..i + 1 - |w|];
      ScanStep(sl, input, st, i)
        == Success(Scan(Step(sl.gotoFn, st.dState, input[i]), t.to, i + 1, |w|,
                        st.rVal + [MakeSlice(t.factory, piece)], st.pieces + [piece], st.closers + [w]))
  {
    assert JsSlice(input, st.lIndex, i + 1 - |w|) == input[st.lIndex..i + 1 - |w|];
  }

  /** A round in which the detector records a marker that is a move of
      the current mode keeps `Progress`: the text since the last move is
      the new piece, closed by the marker. */
  lemma MoveStep(sl: Slicer, m: Markers, input: string, st: Scan, i: nat, w: string, t: Transition)
    requires Progress(sl, m, input, i, st) && i < |input|
    requires var e := Step(sl.gotoFn, st.dState, input[i]);
      && e == DState(sl.gotoFn, input[..i + 1]) && e < |TrieLabels(Words(m))| && e in sl.outFn
      && st.lIndex + |sl.outFn[e]| <= i + 1 && input[i + 1 - |sl.outFn[e]|..i + 1] == sl.outFn[e]
      && sl.outFn[e] == w && w in Words(m) && w != []
    requires Next(m, st.cState, w) == Some(t)
    ensures var piece := input[st.lIndex..i + 1 - |w|];
      Progress(sl, m, input, i + 1,
               Scan(Step(sl.gotoFn, st.dState, input[i]), t.to, i + 1, |w|,
                    st.rVal + [MakeSlice(t.factory, piece)], st.pieces + [piece], st.closers + [w]))
  {
    CutStep(m, input, st.lIndex, st.rVal, st.pieces, st.closers, i + 1, w, t);
    MarkerSeen(Words(m), input, i + 1, w);
  }

  /** The marker a move is made on is the first one recorded since the
      last move, so the moves stay where the detector recorded markers. */
  lemma MoveMarks(sl: Slicer, input: string, pieces: seq<string>, closers: seq<string>, lIndex: nat, i: nat, w: string)
    requires MarkedAt(sl, input, pieces, closers) && |Interleave(pieces, closers)| == lIndex
    requires Quiet(sl, input, lIndex, i) && i < |input| && w != [] && lIndex + |w| <= i + 1
    requires DState(sl.gotoFn, input[..i + 1]) in sl.outFn && sl.outFn[DState(sl.gotoFn, input[..i + 1])] == w
    ensures MarkedAt(sl, input, pieces + [input[lIndex..i + 1 - |w|]], closers + [w])
    ensures Quiet(sl, input, i + 1, i + 1)
  {
    MarkedGrow(sl, input, pieces, closers, input[lIndex..i + 1 - |w|], w, i + 1);
  }

  /** A round in which the detector records a marker that is not a move
      of the current mode stops the loop as `UnexpectedAt` describes. */
  lemma StuckStep(sl: Slicer, m: Markers, input: string, st: Scan, i: nat, w: string)
    requires Runnable(sl) && i < |input| && st.dState in sl.gotoFn && st.lIndex <= i
    requires |st.pieces| == |st.closers| && Interleave(st.pieces, st.closers) == input[..st.lIndex]
    requires Alternates(m, st.closers) && st.cState == ModeAfter(m, st.closers) && Marks(sl, input, i, st)
    requires var e := Step(sl.gotoFn, st.dState, input[i]);
      && e == DState(sl.gotoFn, input[..i + 1])
      && e in sl.outFn && sl.outFn[e] == w && w != []
      && st.lIndex + |sl.outFn[e]| <= i + 1 && input[i + 1 - |sl.outFn[e]|..i + 1] == sl.outFn[e]
    requires w in Words(m) && st.cState in sl.emitter && w !in sl.emitter[st.cState] && Next(m, st.cState, w).None?
    ensures ScanStep(sl, input, st, i).Failure?
    ensures UnexpectedAt(sl, m, input, st.pieces, st.closers, i + 1, ScanStep(sl, input, st, i).error)
  {
    ScanStepStuck(sl, input, st, i, w);
    assert |Interleave(st.pieces, st.closers)| == st.lIndex;
    assert IsPrefix(Interleave(st.pieces, st.closers), input);
    StuckMarks(sl, input, st.pieces, st.closers, st.lIndex, i, w);
  }

  /** The marker a round stops on is the first one recorded since the
      last move. */
  lemma StuckMarks(sl: Slicer, input: string, pieces: seq<string>, closers: seq<string>,
                   lIndex: nat, i: nat, w: string)
    requires MarkedAt(sl, input, pieces, closers) && |Interleave(pieces, closers)| == lIndex
    requires Quiet(sl, input, lIndex, i) && i < |input| && w != [] && lIndex + |w| <= i + 1
    requires DState(sl.gotoFn, input[..i + 1]) in sl.outFn && sl.outFn[DState(sl.gotoFn, input[..i + 1])] == w
    requires input[i + 1 - |w|..i + 1] == w
    ensures FirstAfter(sl, input, pieces, closers, i + 1, w)
  {
  }

  /** What `ScanStep` computes when the detector records a marker `w`
      that is not a move of the current mode. */
  lemma ScanStepStuck(sl: Slicer, input: string, st: Scan, i: nat, w: string)
    requires Runnable(sl) && st.dState in sl.gotoFn && i < |input|
    requires var e := Step(sl.gotoFn, st.dState, input[i]);
      e in sl.outFn && sl.outFn[e] == w && w != []
    requires st.cState in sl.emitter && w !in sl.emitter[st.cState]
    ensures ScanStep(sl, input, st, i) == Failure(Unexpected(w, ErrLoc(input, i + 1, |w|, sl.debugLen)))
  {
  }

  /** One round of the loop keeps `Progress` and `Marks`, or stops the
      way `UnexpectedAt` describes. */
  lemma StepKeepsProgress(sl: Slicer, m: Markers, input: string, st: Scan, i: nat)
    requires Built(sl, m) && Runnable(sl) && i < |input|
    requires Progress(sl, m, input, i, st) && Marks(sl, input, i, st)
    ensures ScanStep(sl, input, st, i).Success? ==>
              Progress(sl, m, input, i + 1, ScanStep(sl, input, st, i).value)
    ensures ScanStep(sl, input, st, i).Success? ==>
              Marks(sl, input, i + 1, ScanStep(sl, input, st, i).value)
    ensures ScanStep(sl, input, st, i).Failure? ==>
              UnexpectedAt(sl, m, input, st.pieces, st.closers, i + 1, ScanStep(sl, input, st, i).error)
  {
    DetectStep(sl, m, input, st.lIndex, i, st.dState);
    var e := Step(sl.gotoFn, st.dState, input[i]);
    if e in sl.outFn {
      var w := sl.outFn[e];
      assert w != [] by {
        RootLabel(Words(m));
        assert [] !in Words(m);
      }
      EmitterAnswers(sl.emitter, m, st.cState, w);
      if w in sl.emitter[st.cState] {
        var t := sl.emitter[st.cState][w];
        ScanStepMoves(sl, input, st, i, w);
        MoveStep(sl, m, input, st, i, w, t);
        assert |Interleave(st.pieces, st.closers)| == st.lIndex;
        MoveMarks(sl, input, st.pieces, st.closers, st.lIndex, i, w);
      } else {
        assert Cut(m, input, st.lIndex, st.rVal, st.pieces, st.closers);
        StuckStep(sl, m, input, st, i, w);
      }
    } else {
      QuietStep(sl, m, input, st, i);
      QuietMarks(sl, input, st, i);
    }
  }

  /** `Progress` and `Marks` are properties of the scan state alone; this
      hands the solver the substitution in one step, which it otherwise
      finds only at a high cost. */
  lemma ProgressTransfer(sl: Slicer, m: Markers, input: string, k: nat, a: Scan, b: Scan)
    requires a == b && Progress(sl, m, input, k, a) && Marks(sl, input, k, a)
    ensures Progress(sl, m, input, k, b) && Marks(sl, input, k, b)
  {
  }

  /** `UnexpectedAt` is a property of the error alone; like
      `ProgressTransfer`, this spares the solver the substitution. */
  lemma UnexpectedTransfer(sl: Slicer, m: Markers, input: string, pieces: seq<string>, closers: seq<string>,
                           at: nat, a: Error, b: Error)
    requires a == b && UnexpectedAt(sl, m, input, pieces, closers, at, a)
    ensures UnexpectedAt(sl, m, input, pieces, closers, at, b)
  {
  }

  /** After `k` rounds the loop either holds `Progress` or has stopped as
      `UnexpectedAt` describes. */
  ghost predicate Reached(sl: Slicer, m: Markers, input: string, k: nat)
    requires Runnable(sl) && k <= |input|
  {
    && (ScanAfter(sl, input, k).Success? ==>
          Progress(sl, m, input, k, ScanAfter(sl, input, k).value) && Marks(sl, input, k, ScanAfter(sl, input, k).value))
    && (ScanAfter(sl, input, k).Failure? ==>
          exists pieces, closers, at :: UnexpectedAt(sl, m, input, pieces, closers, at, ScanAfter(sl, input, k).error))
  }

  /** The loop's first round starts from the state `ProgressAtStart` describes. */
  lemma ScanStarts(sl: Slicer, m: Markers, input: string)
    requires Built(sl, m) && Runnable(sl)
    ensures Reached(sl, m, input, 0)
  {
    ProgressAtStart(sl, m, input);
    ProgressTransfer(sl, m, input, 0, Scan(0, TextMode, 0, 0, [], [], []), ScanAfter(sl, input, 0).value);
  }

  /** Each round keeps `Reached`. */
  lemma ScanContinues(sl: Slicer, m: Markers, input: string, k: nat)
    requires Built(sl, m) && Runnable(sl) && k < |input| && Reached(sl, m, input, k)
    ensures Reached(sl, m, input, k + 1)
  {
    if ScanAfter(sl, input, k).Success? {
      var st := ScanAfter(sl, input, k).value;
      StepKeepsProgress(sl, m, input, st, k);
      ReachedAfterStep(sl, m, input, k, st);
    } else {
      ReachedAfterStop(sl, m, input, k);
    }
  }

  /** A round from a running loop keeps `Reached` when its step does. */
  lemma ReachedAfterStep(sl: Slicer, m: Markers, input: string, k: nat, st: Scan)
    requires Runnable(sl) && k < |input| && ScanAfter(sl, input, k) == Success(st)
    requires ScanStep(sl, input, st, k).Success? ==>
               Progress(sl, m, input, k + 1, ScanStep(sl, input, st, k).value)
    requires ScanStep(sl, input, st, k).Success? ==>
               Marks(sl, input, k + 1, ScanStep(sl, input, st, k).value)
    requires ScanStep(sl, input, st, k).Failure? ==>
               UnexpectedAt(sl, m, input, st.pieces, st.closers, k + 1, ScanStep(sl, input, st, k).error)
    ensures Reached(sl, m, input, k + 1)
  {
    ScanAfterNext(sl, input, k);
    if ScanStep(sl, input, st, k).Success? {
      ProgressTransfer(sl, m, input, k + 1, ScanStep(sl, input, st, k).value, ScanAfter(sl, input, k + 1).value);
    } else {
      UnexpectedTransfer(sl, m, input, st.pieces, st.closers, k + 1,
                         ScanStep(sl, input, st, k).error, ScanAfter(sl, input, k + 1).error);
    }
  }

  /** A loop that has stopped keeps `Reached`. */
  lemma ReachedAfterStop(sl: Slicer, m: Markers, input: string, k: nat)
    requires Runnable(sl) && k < |input| && Reached(sl, m, input, k) && ScanAfter(sl, input, k).Failure?
    ensures Reached(sl, m, input, k + 1)
  {
    assert ScanAfter(sl, input, k + 1) == ScanAfter(sl, input, k);
  }

  /** A round the loop may make: reading the character at `k`. */
  predicate Link(input: string, k: nat) {
    k < |input|
  }

  /** Every round keeps `Reached`, whatever the template. */
  lemma ScanLinks(sl: Slicer, m: Markers, input: string)
    requires Built(sl, m) && Runnable(sl)
    ensures forall k: nat {:trigger Link(input, k)} :: Link(input, k) && Reached(sl, m, input, k) ==> Reached(sl, m, input, k + 1)
  {
    forall k: nat | Link(input, k) && Reached(sl, m, input, k)
      ensures Reached(sl, m, input, k + 1)
    {
      ScanContinues(sl, m, input, k);
    }
  }

  /** `Progress` holds after every prefix the loop gets through, and a
      loop that stops does so as `UnexpectedAt` describes: the rounds,
      chained from the first. */
  lemma {:induction false} ScanProgress(sl: Slicer, m: Markers, input: string, k: nat)
    requires Runnable(sl) && k <= |input| && Reached(sl, m, input, 0)
    requires forall j: nat {:trigger Link(input, j)} :: Link(input, j) && Reached(sl, m, input, j) ==> Reached(sl, m, input, j + 1)
    ensures Reached(sl, m, input, k)
    decreases k
  {
    if k > 0 {
      ScanProgress(sl, m, input, k - 1);
      assert Link(input, k - 1);
    }
  }

  /** On a slicer the constructor built, the whole template is reached. */
  lemma ScanReachesEnd(sl: Slicer, m: Markers, input: string)
    requires Built(sl, m)
    ensures Runnable(sl) && Reached(sl, m, input, |input|)
  {
    BuiltIsRunnable(sl, m);
    ScanStarts(sl, m, input);
    ScanLinks(sl, m, input);
    ScanProgress(sl, m, input, |input|);
  }

  /** A successful slicing: the pieces and the markers between them spell
      the template, the markers alternate (so there is an even number of
      them), and each of the odd number of slices is its piece made by
      the factory of its position: Text at even positions, Code or Output
      after the opening marker before it. The cuts are where the detector
      records a marker: at the end of each closing marker and nowhere else. */
  ghost predicate Spells(sl: Slicer, m: Markers, input: string, slices: seq<Slice>, pieces: seq<string>, closers: seq<string>) {
    && Alternates(m, closers) && |closers| % 2 == 0 && |pieces| == |closers| + 1 && |slices| == |pieces|
    && input == Interleave(pieces[..|closers|], closers) + pieces[|closers|]
    && MarkedAt(sl, input, pieces[..|closers|], closers)
    && Quiet(sl, input, |Interleave(pieces[..|closers|], closers)|, |input|)
    && forall k :: 0 <= k < |pieces| ==> slices[k] == MakeSlice(KindAt(m, closers, k), pieces[k])
  }

  /** At the end of a template read in text mode, the final Text slice
      completes the cut as `Spells` says. */
  lemma FinishClosed(sl: Slicer, m: Markers, input: string, st: Scan)
    requires Progress(sl, m, input, |input|, st) && Marks(sl, input, |input|, st) && st.cState == TextMode
    ensures Spells(sl, m, input, st.rVal + [MakeText(JsSlice(input, st.lIndex, |input|))],
                   st.pieces + [input[st.lIndex..]], st.closers)
  {
    assert JsSlice(input, st.lIndex, |input|) == input[st.lIndex..];
    SpellsFrom(sl, m, input, st.lIndex, st.rVal, st.pieces, st.closers,
               MakeText(JsSlice(input, st.lIndex, |input|)));
  }

  /** The cut so far, an even number of markers and no marker recorded
      since the last move: the rest of the template as a Text slice
      completes what `Spells` describes. */
  lemma SpellsFrom(sl: Slicer, m: Markers, input: string, lIndex: nat, rVal: seq<Slice>,
                   pieces: seq<string>, closers: seq<string>, last: Slice)
    requires Cut(m, input, lIndex, rVal, pieces, closers) && |closers| % 2 == 0
    requires MarkedAt(sl, input, pieces, closers) && Quiet(sl, input, lIndex, |input|)
    requires last == MakeText(input[lIndex..])
    ensures Spells(sl, m, input, rVal + [last], pieces + [input[lIndex..]], closers)
  {
    FinishCut(m, input, lIndex, rVal, pieces, closers);
    assert |Interleave(pieces, closers)| == lIndex;
    FinishMarks(sl, input, pieces, closers, input[lIndex..]);
  }

  /** The final piece, read without a recorded marker, keeps the cuts
      where the detector recorded markers. */
  lemma FinishMarks(sl: Slicer, input: string, pieces: seq<string>, closers: seq<string>, last: string)
    requires MarkedAt(sl, input, pieces, closers) && Quiet(sl, input, |Interleave(pieces, closers)|, |input|)
    ensures MarkedAt(sl, input, (pieces + [last])[..|closers|], closers)
    ensures Quiet(sl, input, |Interleave((pieces + [last])[..|closers|], closers)|, |input|)
  {
    assert (pieces + [last])[..|closers|] == pieces;
  }

  /** At the end of a template read inside a region, the error is the
      one `NotClosedAt` describes. */
  lemma FinishOpen(sl: Slicer, m: Markers, input: string, st: Scan)
    requires Progress(sl, m, input, |input|, st) && Marks(sl, input, |input|, st) && st.cState != TextMode
    ensures NotClosedAt(sl, m, input, st.pieces, st.closers,
                        NotClosed(ErrLoc(input, st.lIndex, st.lastLen, sl.debugLen)))
  {
    assert |Interleave(st.pieces, st.closers)| == st.lIndex;
  }

  /** A loop that made no move is still at the start of the template, in
      text mode, with no slices. */
  lemma FinishQuiet(sl: Slicer, m: Markers, input: string, st: Scan)
    requires Progress(sl, m, input, |input|, st) && st.closers == []
    ensures st.cState == TextMode && st.rVal == [] && st.lIndex == 0
  {
    assert |Interleave(st.pieces, st.closers)| == st.lIndex;
  }

  /** Every outcome of `slice()` on a slicer the constructor built:
      success cuts the template as `Spells` says, and the two errors arise
      as `UnexpectedAt` and `NotClosedAt` say. */
  lemma SlicedOutcomes(sl: Slicer, m: Markers, input: string)
    requires Built(sl, m)
    ensures Runnable(sl)
    ensures Sliced(sl, input).Success? ==>
              exists pieces, closers :: Spells(sl, m, input, Sliced(sl, input).value, pieces, closers)
    ensures Sliced(sl, input).Failure? && Sliced(sl, input).error.Unexpected? ==>
              exists pieces, closers, at :: UnexpectedAt(sl, m, input, pieces, closers, at, Sliced(sl, input).error)
    ensures Sliced(sl, input).Failure? && Sliced(sl, input).error.NotClosed? ==>
              exists pieces, closers :: NotClosedAt(sl, m, input, pieces, closers, Sliced(sl, input).error)
  {
    ScanReachesEnd(sl, m, input);
    SlicedFromEnd(sl, m, input);
  }

  /** The outcomes of `slice()`, from what the loop has kept up to the
      end of the template. */
  lemma SlicedFromEnd(sl: Slicer, m: Markers, input: string)
    requires Runnable(sl) && Reached(sl, m, input, |input|)
    ensures Sliced(sl, input).Success? ==>
              exists pieces, closers :: Spells(sl, m, input, Sliced(sl, input).value, pieces, closers)
    ensures Sliced(sl, input).Failure? && Sliced(sl, input).error.Unexpected? ==>
              exists pieces, closers, at :: UnexpectedAt(sl, m, input, pieces, closers, at, Sliced(sl, input).error)
    ensures Sliced(sl, input).Failure? && Sliced(sl, input).error.NotClosed? ==>
              exists pieces, closers :: NotClosedAt(sl, m, input, pieces, closers, Sliced(sl, input).error)
  {
    var s := ScanAfter(sl, input, |input|);
    if s.Success? {
      var st := s.value;
      if st.cState == TextMode {
        SlicedClosed(sl, m, input, st);
      } else {
        SlicedOpen(sl, m, input, st);
      }
    } else {
      SlicedStopped(sl, m, input);
    }
  }

  /** A loop that stopped on a marker fails as `UnexpectedAt` describes. */
  lemma SlicedStopped(sl: Slicer, m: Markers, input: string)
    requires Runnable(sl) && ScanAfter(sl, input, |input|).Failure?
    requires exists pieces, closers, at :: UnexpectedAt(sl, m, input, pieces, closers, at, ScanAfter(sl, input, |input|).error)
    ensures Sliced(sl, input).Failure?
    ensures exists pieces, closers, at :: UnexpectedAt(sl, m, input, pieces, closers, at, Sliced(sl, input).error)
  {
    var e := ScanAfter(sl, input, |input|).error;
    var pieces, closers, at :| UnexpectedAt(sl, m, input, pieces, closers, at, e);
    UnexpectedTransfer(sl, m, input, pieces, closers, at, e, Sliced(sl, input).error);
  }

  /** A loop that ends in text mode succeeds with the slices `Spells` describes. */
  lemma SlicedClosed(sl: Slicer, m: Markers, input: string, st: Scan)
    requires Runnable(sl) && ScanAfter(sl, input, |input|) == Success(st) && st.cState == TextMode
    requires Progress(sl, m, input, |input|, st) && Marks(sl, input, |input|, st)
    ensures Sliced(sl, input).Success?
    ensures Spells(sl, m, input, Sliced(sl, input).value, st.pieces + [input[st.lIndex..]], st.closers)
  {
    FinishClosed(sl, m, input, st);
    SpellsTransfer(sl, m, input, st.rVal + [MakeText(JsSlice(input, st.lIndex, |input|))],
                   Sliced(sl, input).value, st.pieces + [input[st.lIndex..]], st.closers);
  }

  /** A loop that ends inside a region fails as `NotClosedAt` describes. */
  lemma SlicedOpen(sl: Slicer, m: Markers, input: string, st: Scan)
    requires Runnable(sl) && ScanAfter(sl, input, |input|) == Success(st) && st.cState != TextMode
    requires Progress(sl, m, input, |input|, st) && Marks(sl, input, |input|, st)
    ensures Sliced(sl, input).Failure?
    ensures NotClosedAt(sl, m, input, st.pieces, st.closers, Sliced(sl, input).error)
  {
    FinishOpen(sl, m, input, st);
    NotClosedTransfer(sl, m, input, st.pieces, st.closers,
                      NotClosed(ErrLoc(input, st.lIndex, st.lastLen, sl.debugLen)), Sliced(sl, input).error);
  }

  /** `Spells` is a property of the slices as a value; like
      `ProgressTransfer`, this spares the solver the substitution. */
  lemma SpellsTransfer(sl: Slicer, m: Markers, input: string, a: seq<Slice>, b: seq<Slice>,
                       pieces: seq<string>, closers: seq<string>)
    requires a == b && Spells(sl, m, input, a, pieces, closers)
    ensures Spells(sl, m, input, b, pieces, closers)
  {
  }

  /** `NotClosedAt` is a property of the error alone; like
      `ProgressTransfer`, this spares the solver the substitution. */
  lemma NotClosedTransfer(sl: Slicer, m: Markers, input: string, pieces: seq<string>, closers: seq<string>,
                          a: Error, b: Error)
    requires a == b && NotClosedAt(sl, m, input, pieces, closers, a)
    ensures NotClosedAt(sl, m, input, pieces, closers, b)
  {
  }

  /** Up to `to`, the detector records a marker exactly at the end of a
      closing marker, given `MarkedAt` and no marker recorded after the
      cuts. */
  lemma MarkedCuts(sl: Slicer, input: string, pieces: seq<string>, closers: seq<string>, to: int)
    requires MarkedAt(sl, input, pieces, closers) && |Interleave(pieces, closers)| <= to
    requires Quiet(sl, input, |Interleave(pieces, closers)|, to)
    ensures forall j :: 0 < j <= to ==> (Recorded(sl, input, j) <==> j in Ends(pieces, closers))
  {
    forall j | 0 < j <= to
      ensures Recorded(sl, input, j) <==> j in Ends(pieces, closers)
    {
      if j in Ends(pieces, closers) {
        var k :| 0 <= k < |closers| && Ends(pieces, closers)[k] == j;
        assert RecordedAs(sl, input, Ends(pieces, closers)[k], closers[k]);
      }
    }
  }

  /** In a successful slicing the cuts are exactly where the detector
      records a marker: at every position of the template, it records one
      if and only if a closing marker ends there, and that very marker. */
  lemma SpellsCuts(sl: Slicer, m: Markers, input: string, slices: seq<Slice>, pieces: seq<string>, closers: seq<string>)
    requires Spells(sl, m, input, slices, pieces, closers)
    ensures var ends := Ends(pieces[..|closers|], closers);
      && (forall j :: 0 < j <= |input| ==> (Recorded(sl, input, j) <==> j in ends))
      && (forall k :: 0 <= k < |closers| ==> RecordedAs(sl, input, ends[k], closers[k]))
  {
    MarkedCuts(sl, input, pieces[..|closers|], closers, |input|);
  }

  /** When `slice()` stops on a marker, the detector has recorded markers
      exactly at the ends of the moves' closing markers before it, and
      records the offending marker where it ends. */
  lemma UnexpectedCuts(sl: Slicer, m: Markers, input: string, pieces: seq<string>, closers: seq<string>,
                       at: nat, e: Error)
    requires UnexpectedAt(sl, m, input, pieces, closers, at, e)
    ensures forall j :: 0 < j < at ==> (Recorded(sl, input, j) <==> j in Ends(pieces, closers))
    ensures RecordedAs(sl, input, at, e.marker)
  {
    MarkedCuts(sl, input, pieces, closers, at - 1);
  }

  /** A template in which the detector records no marker is one Text
      slice of the whole template, even when a marker the detector misses
      occurs in it. */
  lemma SlicedWhenQuiet(sl: Slicer, m: Markers, input: string)
    requires Built(sl, m) && Quiet(sl, input, 0, |input|)
    ensures Runnable(sl) && Sliced(sl, input) == Success([MakeText(input)])
  {
    ScanReachesEnd(sl, m, input);
    var s := ScanAfter(sl, input, |input|);
    assert s.Success?;
    var st := s.value;
    NoMovesWhenQuiet(sl, input, st.pieces, st.closers);
    FinishQuiet(sl, m, input, st);
    assert JsSlice(input, 0, |input|) == input;
    assert [] + [MakeText(input)] == [MakeText(input)];
  }

  /** Conversely, a slicing into a single slice means the detector
      recorded no marker in the template. */
  lemma OneSliceMeansQuiet(sl: Slicer, m: Markers, input: string)
    requires Built(sl, m)
    ensures Runnable(sl)
    ensures Sliced(sl, input).Success? && |Sliced(sl, input).value| == 1 ==> Quiet(sl, input, 0, |input|)
  {
    SlicedOutcomes(sl, m, input);
    if Sliced(sl, input).Success? && |Sliced(sl, input).value| == 1 {
      var pieces, closers :| Spells(sl, m, input, Sliced(sl, input).value, pieces, closers);
      assert closers == [];
      assert pieces[..0] == [];
    }
  }

  /** Moves are made only where the detector records a marker. */
  lemma NoMovesWhenQuiet(sl: Slicer, input: string, pieces: seq<string>, closers: seq<string>)
    requires MarkedAt(sl, input, pieces, closers)
    ensures closers != [] ==> !Quiet(sl, input, 0, |input|)
  {
    if closers != [] {
      assert RecordedAs(sl, input, Ends(pieces, closers)[0], closers[0]);
    }
  }

  /** A template without any marker in it is one Text slice of the
      whole template. */
  lemma SlicedWithoutMarkers(sl: Slicer, m: Markers, input: string)
    requires Built(sl, m) && NoMarkerIn(Words(m), input)
    ensures Runnable(sl) && Sliced(sl, input) == Success([MakeText(input)])
  {
    NoMarkerIsQuiet(sl, m, input);
    SlicedWhenQuiet(sl, m, input);
  }

  /** The detector records no marker in a template without markers. */
  lemma NoMarkerIsQuiet(sl: Slicer, m: Markers, input: string)
    requires Built(sl, m) && NoMarkerIn(Words(m), input)
    ensures Quiet(sl, input, 0, |input|)
  {
    BuiltIsRunnable(sl, m);
    forall j | 0 < j <= |input|
      ensures !Recorded(sl, input, j)
    {
      RecordedMarkerOccurs(sl, m, input, j);
    }
  }

  /** A marker the detector records occurs in the template. */
  lemma RecordedMarkerOccurs(sl: Slicer, m: Markers, input: string, j: nat)
    requires Built(sl, m) && Closed(sl.gotoFn) && j <= |input|
    ensures Recorded(sl, input, j) ==> !NoMarkerIn(Words(m), input)
  {
    var e := DState(sl.gotoFn, input[..j]);
    if e in sl.outFn {
      MarkerEndsHere(sl, m, input, j, e);
      MarkerSeen(Words(m), input, j, sl.outFn[e]);
    }
  }

  /** The markers a template uses when none are configured: `[!` and `!]`
      around code, `[>` and `<]` around output. */
  const DefaultMarkers := Markers("[!", "!]", "[>", "<]")

  /** The states of the trie of the default markers, in creation order. */
  const DefaultStates: seq<string> := ["", "[", "[!", "!", "!]", "[>", "<", "<]"]

  /** The detector tables the constructor builds from the default markers. */
  ghost predicate DefaultTables(sl: Slicer) {
    && IsTrie(sl.gotoFn, DefaultStates)
    && (forall s: State :: s in sl.outFn <==> s < |DefaultStates| && DefaultStates[s] in Words(DefaultMarkers))
    && (forall s :: s in sl.outFn ==> sl.outFn[s] == DefaultStates[s] && sl.gotoFn[s] == map[])
  }

  /** A slicer built from the default markers has those tables. */
  lemma BuiltDefault(sl: Slicer)
    requires Built(sl, DefaultMarkers)
    ensures Runnable(sl) && DefaultTables(sl)
  {
    BuiltIsRunnable(sl, DefaultMarkers);
    DefaultLabels();
  }

  /** What a template's scan meets in those tables: the four marker states
      and the markers they record, the transitions out of the root and out
      of the states half-way through a marker, and none out of the marker
      states themselves. */
  ghost predicate DefaultDetector(sl: Slicer) {
    var g := sl.gotoFn;
    && Closed(g)
    && sl.outFn.Keys == {2, 4, 5, 7}
    && sl.outFn[2] == "[!" && sl.outFn[4] == "!]" && sl.outFn[5] == "[>" && sl.outFn[7] == "<]"
    && 1 in g && 2 in g && 3 in g && 4 in g && 5 in g && 6 in g && 7 in g
    && g[2] == map[] && g[4] == map[] && g[5] == map[] && g[7] == map[]
    && '[' in g[0] && g[0]['['] == 1 && '!' in g[0] && g[0]['!'] == 3 && '<' in g[0] && g[0]['<'] == 6
    && '\n' !in g[0] && ' ' !in g[0]
    && '!' in g[1] && g[1]['!'] == 2 && '>' in g[1] && g[1]['>'] == 5
    && ']' in g[3] && g[3][']'] == 4 && ']' in g[6] && g[6][']'] == 7
  }

  /** The marker states record exactly the default markers. */
  lemma DefaultStops(sl: Slicer)
    requires DefaultTables(sl)
    ensures sl.outFn.Keys == {2, 4, 5, 7}
    ensures sl.outFn[2] == "[!" && sl.outFn[4] == "!]" && sl.outFn[5] == "[>" && sl.outFn[7] == "<]"
    ensures sl.gotoFn[2] == map[] && sl.gotoFn[4] == map[] && sl.gotoFn[5] == map[] && sl.gotoFn[7] == map[]
  {
    MarkerStates();
  }

  /** Of the default trie's states, exactly the 2nd, 4th, 5th and 7th
      spell a default marker. */
  lemma MarkerStates()
    ensures forall s :: 0 <= s < |DefaultStates| ==> (DefaultStates[s] in Words(DefaultMarkers) <==> s in {2, 4, 5, 7})
  {
    assert Words(DefaultMarkers) == ["[!", "!]", "[>", "<]"];
  }

  /** The transitions of those tables that the test templates take: out
      of the root, out of `[`, and out of `!` and `<`. */
  lemma DefaultMoves(g: Goto)
    requires IsTrie(g, DefaultStates)
    ensures '[' in g[0] && g[0]['['] == 1 && '!' in g[0] && g[0]['!'] == 3 && '<' in g[0] && g[0]['<'] == 6
    ensures '!' in g[1] && g[1]['!'] == 2 && '>' in g[1] && g[1]['>'] == 5
    ensures ']' in g[3] && g[3][']'] == 4 && ']' in g[6] && g[6][']'] == 7
  {
    RootMoves(g);
    BracketMoves(g);
    CloserMoves(g);
  }

  /** Out of the root: `[`, `!` and `<` begin markers. */
  lemma RootMoves(g: Goto)
    requires IsTrie(g, DefaultStates)
    ensures '[' in g[0] && g[0]['['] == 1 && '!' in g[0] && g[0]['!'] == 3 && '<' in g[0] && g[0]['<'] == 6
  {
    assert Child(DefaultStates, 0, 1) && Child(DefaultStates, 0, 3) && Child(DefaultStates, 0, 6);
  }

  /** Out of `[`: `!` and `>` complete a marker. */
  lemma BracketMoves(g: Goto)
    requires IsTrie(g, DefaultStates)
    ensures '!' in g[1] && g[1]['!'] == 2 && '>' in g[1] && g[1]['>'] == 5
  {
    assert "[!"[..1] == "[" && "[>"[..1] == "[";
    assert Child(DefaultStates, 1, 2) && Child(DefaultStates, 1, 5);
  }

  /** Out of `!` and `<`: `]` completes a marker. */
  lemma CloserMoves(g: Goto)
    requires IsTrie(g, DefaultStates)
    ensures ']' in g[3] && g[3][']'] == 4 && ']' in g[6] && g[6][']'] == 7
  {
    assert "!]"[..1] == "!" && "<]"[..1] == "<";
    assert Child(DefaultStates, 3, 4) && Child(DefaultStates, 6, 7);
  }

  /** Line breaks and spaces lead nowhere from the root. */
  lemma DefaultGaps(g: Goto)
    requires IsTrie(g, DefaultStates)
    ensures 0 in g && '\n' !in g[0] && ' ' !in g[0]
  {
    StepSpellsLabel(g, DefaultStates, 0, '\n');
    StepSpellsLabel(g, DefaultStates, 0, ' ');
    assert DefaultStates[0] + ['\n'] == "\n" && DefaultStates[0] + [' '] == " ";
  }

  /** The tables give what `DefaultDetector` lists. */
  lemma TablesDetector(sl: Slicer)
    requires DefaultTables(sl)
    ensures DefaultDetector(sl)
  {
    TrieIsClosed(sl.gotoFn, DefaultStates);
    DefaultStops(sl);
    DefaultMoves(sl.gotoFn);
    DefaultGaps(sl.gotoFn);
  }

  /** A slicer built from the default markers runs on those tables. */
  lemma BuiltDefaults(sl: Slicer)
    requires Built(sl, DefaultMarkers)
    ensures Runnable(sl) && DefaultDetector(sl)
  {
    BuiltDefault(sl);
    TablesDetector(sl);
  }

  /** The path of a default marker: its first character leads from the
      root to a state that records nothing, its second to the state that
      records the marker. */
  lemma MarkerPath(sl: Slicer, w: string)
    requires DefaultDetector(sl) && w in Words(DefaultMarkers)
    ensures |w| == 2 && w[0] in sl.gotoFn[0] && sl.gotoFn[0][w[0]] !in sl.outFn
    ensures Step(sl.gotoFn, sl.gotoFn[0][w[0]], w[1]) in sl.outFn
    ensures sl.outFn[Step(sl.gotoFn, sl.gotoFn[0][w[0]], w[1])] == w
  {
    if w == "[!" {
      assert w[0] == '[' && w[1] == '!';
    } else if w == "!]" {
      assert w[0] == '!' && w[1] == ']';
    } else if w == "[>" {
      assert w[0] == '[' && w[1] == '>';
    } else {
      assert w[0] == '<' && w[1] == ']';
    }
  }

  /** From the root, or from a state that records a marker, the detector
      reads a default marker in two rounds: the first records nothing, the
      second reaches the state that records the marker. */
  lemma ReadMarker(sl: Slicer, input: string, k: nat, st: Scan, w: string)
    requires Runnable(sl) && DefaultDetector(sl) && k + 2 <= |input| && ScanAfter(sl, input, k) == Success(st)
    requires st.dState == 0 || st.dState in sl.outFn
    requires w in Words(DefaultMarkers) && input[k] == w[0] && input[k + 1] == w[1]
    ensures ScanAfter(sl, input, k + 1).Success?
    ensures var st' := ScanAfter(sl, input, k + 1).value;
      && st' == st.(dState := st'.dState)
      && Step(sl.gotoFn, st'.dState, input[k + 1]) in sl.outFn
      && sl.outFn[Step(sl.gotoFn, st'.dState, input[k + 1])] == w
  {
    MarkerPath(sl, w);
    assert Step(sl.gotoFn, st.dState, input[k]) == sl.gotoFn[0][w[0]];
    RoundQuiet(sl, input, k, st);
  }

  /** At the root, a line break or a space leaves the loop as it was. */
  lemma ReadBlank(sl: Slicer, input: string, k: nat, st: Scan)
    requires Runnable(sl) && DefaultDetector(sl) && k < |input| && ScanAfter(sl, input, k) == Success(st)
    requires st.dState == 0 && (input[k] == '\n' || input[k] == ' ')
    ensures ScanAfter(sl, input, k + 1) == Success(st)
  {
    RoundQuiet(sl, input, k, st);
  }

  /** A round in which the detector records no marker changes only its state. */
  lemma RoundQuiet(sl: Slicer, input: string, k: nat, st: Scan)
    requires Runnable(sl) && k < |input| && ScanAfter(sl, input, k) == Success(st)
    requires Step(sl.gotoFn, st.dState, input[k]) !in sl.outFn
    ensures ScanAfter(sl, input, k + 1) == Success(st.(dState := Step(sl.gotoFn, st.dState, input[k])))
  {
    ScanAfterNext(sl, input, k);
  }

  /** A round in which the detector records a move of the current mode
      enters the move's mode, and the next slice starts after the marker. */
  lemma RoundMove(sl: Slicer, input: string, k: nat, st: Scan, w: string)
    requires Runnable(sl) && k < |input| && ScanAfter(sl, input, k) == Success(st)
    requires var d := Step(sl.gotoFn, st.dState, input[k]);
      d in sl.outFn && sl.outFn[d] == w && w != [] && st.cState in sl.emitter && w in sl.emitter[st.cState]
    ensures var r := ScanAfter(sl, input, k + 1);
      && r.Success? && r.value.dState == Step(sl.gotoFn, st.dState, input[k])
      && r.value.cState == sl.emitter[st.cState][w].to && r.value.lIndex == k + 1 && r.value.lastLen == |w|
  {
    ScanAfterNext(sl, input, k);
  }

  /** A round in which the detector records a marker that is no move of
      the current mode ends `slice()` with `Unexpected`, the marker ending
      at the character just read. */
  lemma RoundStuck(sl: Slicer, input: string, k: nat, st: Scan, w: string)
    requires Runnable(sl) && k < |input| && ScanAfter(sl, input, k) == Success(st)
    requires var d := Step(sl.gotoFn, st.dState, input[k]);
      d in sl.outFn && sl.outFn[d] == w && w != [] && st.cState in sl.emitter && w !in sl.emitter[st.cState]
    ensures Sliced(sl, input) == Failure(Unexpected(w, ErrLoc(input, k + 1, |w|, sl.debugLen)))
  {
    ScanAfterNext(sl, input, k);
    FailureSticks(sl, input, k + 1, |input|);
  }

  /** A template that opens a block with `open` and then holds a marker
      `w` that is no move of the block's mode: `slice()` stops at `w`. */
  lemma MarkerInsideBlock(sl: Slicer, input: string, open: string, w: string)
    requires Built(sl, DefaultMarkers) && input == open + w
    requires open in Words(DefaultMarkers) && Next(DefaultMarkers, TextMode, open).Some?
    requires w in Words(DefaultMarkers) && Next(DefaultMarkers, Next(DefaultMarkers, TextMode, open).value.to, w).None?
    ensures Runnable(sl)
    ensures Sliced(sl, input) == Failure(Unexpected(w, ErrLoc(input, 4, 2, sl.debugLen)))
  {
    BuiltDefaults(sl);
    EmitterAnswers(sl.emitter, DefaultMarkers, TextMode, open);
    EmitterAnswers(sl.emitter, DefaultMarkers, Next(DefaultMarkers, TextMode, open).value.to, w);
    ScanInsideBlock(sl, input, open, w);
  }

  /** The scan behind `MarkerInsideBlock`, on the detector's tables and
      the two entries of the mode machine it meets. */
  lemma ScanInsideBlock(sl: Slicer, input: string, open: string, w: string)
    requires Runnable(sl) && DefaultDetector(sl) && input == open + w
    requires open in Words(DefaultMarkers) && open in sl.emitter[TextMode] && sl.emitter[TextMode][open].to in sl.emitter
    requires w in Words(DefaultMarkers) && w !in sl.emitter[sl.emitter[TextMode][open].to]
    ensures Sliced(sl, input) == Failure(Unexpected(w, ErrLoc(input, 4, 2, sl.debugLen)))
  {
    MarkerPath(sl, open);
    MarkerPath(sl, w);
    ReadMarker(sl, input, 0, Scan(0, TextMode, 0, 0, [], [], []), open);
    RoundMove(sl, input, 1, ScanAfter(sl, input, 1).value, open);
    ReadMarker(sl, input, 2, ScanAfter(sl, input, 2).value, w);
    RoundStuck(sl, input, 3, ScanAfter(sl, input, 3).value, w);
  }

  /** A template that is one marker opening a block: `slice()` ends
      outside text mode and reports the marker as not closed. */
  lemma UnclosedBlock(sl: Slicer, input: string, open: string)
    requires Built(sl, DefaultMarkers) && input == open
    requires open in Words(DefaultMarkers) && Next(DefaultMarkers, TextMode, open).Some?
    ensures Runnable(sl)
    ensures Sliced(sl, input) == Failure(NotClosed(ErrLoc(input, 2, 2, sl.debugLen)))
  {
    BuiltDefaults(sl);
    EmitterAnswers(sl.emitter, DefaultMarkers, TextMode, open);
    ScanUnclosedBlock(sl, input, open);
  }

  /** The scan behind `UnclosedBlock`. */
  lemma ScanUnclosedBlock(sl: Slicer, input: string, open: string)
    requires Runnable(sl) && DefaultDetector(sl) && input == open
    requires open in Words(DefaultMarkers) && open in sl.emitter[TextMode]
    requires sl.emitter[TextMode][open].to != TextMode
    ensures Sliced(sl, input) == Failure(NotClosed(ErrLoc(input, 2, 2, sl.debugLen)))
  {
    MarkerPath(sl, open);
    ReadMarker(sl, input, 0, Scan(0, TextMode, 0, 0, [], [], []), open);
    RoundMove(sl, input, 1, ScanAfter(sl, input, 1).value, open);
  }

  /** Line breaks and spaces alone leave the loop where it started. */
  lemma {:induction false} BlanksQuiet(sl: Slicer, input: string, k: nat)
    requires Runnable(sl) && DefaultDetector(sl) && k <= |input|
    requires forall i :: 0 <= i < k ==> input[i] == '\n' || input[i] == ' '
    ensures ScanAfter(sl, input, k) == Success(Scan(0, TextMode, 0, 0, [], [], []))
  {
    if k > 0 {
      BlanksQuiet(sl, input, k - 1);
      ReadBlank(sl, input, k - 1, Scan(0, TextMode, 0, 0, [], [], []));
    }
  }

  /** A template whose first marker, after line breaks and spaces, is no
      move of text mode: `slice()` stops at it. */
  lemma StrayMarker(sl: Slicer, input: string, k: nat, w: string)
    requires Built(sl, DefaultMarkers) && |input| == k + 2
    requires forall i :: 0 <= i < k ==> input[i] == '\n' || input[i] == ' '
    requires w in Words(DefaultMarkers) && Next(DefaultMarkers, TextMode, w).None? && input[k..] == w
    ensures Runnable(sl)
    ensures Sliced(sl, input) == Failure(Unexpected(w, ErrLoc(input, k + 2, 2, sl.debugLen)))
  {
    BuiltDefaults(sl);
    EmitterAnswers(sl.emitter, DefaultMarkers, TextMode, w);
    MarkerPath(sl, w);
    assert input[k] == w[0] && input[k + 1] == w[1];
    BlanksQuiet(sl, input, k);
    ReadMarker(sl, input, k, Scan(0, TextMode, 0, 0, [], [], []), w);
    RoundStuck(sl, input, k + 1, ScanAfter(sl, input, k + 1).value, w);
  }

  /** The error tests of the suite, on any slicer the constructor builds
      from the default markers: `slice()` stops where the test expects with
      the error it expects, whose text with the default `debugLen` of 6 is
      the one it checks. `[>[!`: code begins inside output. */
  lemma SliceCodeStartAfterOutputStart(sl: Slicer)
    requires Built(sl, DefaultMarkers)
    ensures Runnable(sl)
    ensures Sliced(sl, "[>[!") == Failure(Unexpected("[!", ErrLoc("[>[!", 4, 2, sl.debugLen)))
    ensures sl.debugLen == 6 ==> Message(Sliced(sl, "[>[!").error) == "Unexpected \"[!\" marker: \"[> >>> [!\""
  {
    MarkerInsideBlock(sl, "[>[!", "[>", "[!");
    InsideMessages();
  }

  /** `[![>`: output begins inside code. */
  lemma SliceOutputStartAfterCodeStart(sl: Slicer)
    requires Built(sl, DefaultMarkers)
    ensures Runnable(sl)
    ensures Sliced(sl, "[![>") == Failure(Unexpected("[>", ErrLoc("[![>", 4, 2, sl.debugLen)))
    ensures sl.debugLen == 6 ==> Message(Sliced(sl, "[![>").error) == "Unexpected \"[>\" marker: \"[! >>> [>\""
  {
    MarkerInsideBlock(sl, "[![>", "[!", "[>");
    InsideMessages();
  }

  /** `[>!]`: code ends inside output. */
  lemma SliceCodeEndAfterOutputStart(sl: Slicer)
    requires Built(sl, DefaultMarkers)
    ensures Runnable(sl)
    ensures Sliced(sl, "[>!]") == Failure(Unexpected("!]", ErrLoc("[>!]", 4, 2, sl.debugLen)))
    ensures sl.debugLen == 6 ==> Message(Sliced(sl, "[>!]").error) == "Unexpected \"!]\" marker: \"[> >>> !]\""
  {
    MarkerInsideBlock(sl, "[>!]", "[>", "!]");
    InsideMessages();
  }

  /** `[!<]`: output ends inside code. */
  lemma SliceOutputEndAfterCodeStart(sl: Slicer)
    requires Built(sl, DefaultMarkers)
    ensures Runnable(sl)
    ensures Sliced(sl, "[!<]") == Failure(Unexpected("<]", ErrLoc("[!<]", 4, 2, sl.debugLen)))
    ensures sl.debugLen == 6 ==> Message(Sliced(sl, "[!<]").error) == "Unexpected \"<]\" marker: \"[! >>> <]\""
  {
    MarkerInsideBlock(sl, "[!<]", "[!", "<]");
    InsideMessages();
  }

  /** `[!`: code never ends. */
  lemma SliceUnclosedCode(sl: Slicer)
    requires Built(sl, DefaultMarkers)
    ensures Runnable(sl)
    ensures Sliced(sl, "[!") == Failure(NotClosed(ErrLoc("[!", 2, 2, sl.debugLen)))
    ensures sl.debugLen == 6 ==> Message(Sliced(sl, "[!").error) == "Marker not closed: \"[!\""
  {
    UnclosedBlock(sl, "[!", "[!");
    UnclosedMessages();
  }

  /** `[>`: output never ends. */
  lemma SliceUnclosedOutput(sl: Slicer)
    requires Built(sl, DefaultMarkers)
    ensures Runnable(sl)
    ensures Sliced(sl, "[>") == Failure(NotClosed(ErrLoc("[>", 2, 2, sl.debugLen)))
    ensures sl.debugLen == 6 ==> Message(Sliced(sl, "[>").error) == "Marker not closed: \"[>\""
  {
    UnclosedBlock(sl, "[>", "[>");
    UnclosedMessages();
  }

  /** `!]`: code ends without beginning. */
  lemma SliceUnopenedCode(sl: Slicer)
    requires Built(sl, DefaultMarkers)
    ensures Runnable(sl)
    ensures Sliced(sl, "!]") == Failure(Unexpected("!]", ErrLoc("!]", 2, 2, sl.debugLen)))
    ensures sl.debugLen == 6 ==> Message(Sliced(sl, "!]").error) == "Unexpected \"!]\" marker: \"!]\""
  {
    StrayMarker(sl, "!]", 0, "!]");
    UnopenedMessages();
  }

  /** `<]`: output ends without beginning. */
  lemma SliceUnopenedOutput(sl: Slicer)
    requires Built(sl, DefaultMarkers)
    ensures Runnable(sl)
    ensures Sliced(sl, "<]") == Failure(Unexpected("<]", ErrLoc("<]", 2, 2, sl.debugLen)))
    ensures sl.debugLen == 6 ==> Message(Sliced(sl, "<]").error) == "Unexpected \"<]\" marker: \"<]\""
  {
    StrayMarker(sl, "<]", 0, "<]");
    UnopenedMessages();
  }

  /** `\n\n  <]`: output ends without beginning, after two line breaks and two spaces. */
  lemma SliceUnopenedOutputOnOtherLine(sl: Slicer)
    requires Built(sl, DefaultMarkers)
    ensures Runnable(sl)
    ensures Sliced(sl, "\n\n  <]") == Failure(Unexpected("<]", ErrLoc("\n\n  <]", 6, 2, sl.debugLen)))
    ensures sl.debugLen == 6 ==> Message(Sliced(sl, "\n\n  <]").error) == "Unexpected \"<]\" marker: \"\n\n   >>> <]\""
  {
    StrayMarker(sl, "\n\n  <]", 4, "<]");
    UnopenedMessages();
  }
}
