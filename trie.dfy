/**
 * The marker automaton: one trie shared by the four markers, with integer
 * states created in order, and the reset-to-root detector that runs it
 * over a template.
 *
 * A state is identified by the string spelled on the path from the root
 * to it (its label). `TrieLabels(words)` lists these labels in the order
 * the states are created, so the label of state `s` is
 * `TrieLabels(words)[s]`; `IsTrie` says when a transition table is the
 * trie over such a list.
 */
module MarkerTrie {
  import opened StcgBase

  type State = nat

  /** `gotoFunction`: for each state, its outgoing transitions by character. */
  type Goto = map<State, map<char, State>>

  predicate IsPrefix(p: string, w: string) {
    |p| <= |w| && w[..|p|] == p
  }

  predicate IsStrictPrefix(p: string, w: string) {
    |p| < |w| && w[..|p|] == p
  }

  /** The labels after walking `p` from the root: every prefix of `p`
      not yet present gets the next state, shortest first. */
  function Grow(labels: seq<string>, p: string): seq<string>
    decreases |p|
  {
    if p == [] then labels
    else
      var l := Grow(labels, p[..|p| - 1]);
      if p in l then l else l + [p]
  }

  /** The labels of the states after inserting `words` in order; state 0
      is the root. */
  function TrieLabels(words: seq<string>): seq<string>
    decreases |words|
  {
    if words == [] then [[]] else Grow(TrieLabels(words[..|words| - 1]), words[|words| - 1])
  }

  predicate Distinct<T(==)>(xs: seq<T>) {
    forall i, j :: 0 <= i < j < |xs| ==> xs[i] != xs[j]
  }

  ghost predicate PrefixClosed(labels: seq<string>) {
    forall t, j :: 0 <= t < |labels| && 0 <= j <= |labels[t]| ==> labels[t][..j] in labels
  }

  /** A list of labels that can number the states of a trie. */
  ghost predicate GoodLabels(labels: seq<string>) {
    |labels| > 0 && labels[0] == [] && Distinct(labels) && PrefixClosed(labels)
  }

  /** Growing keeps the old states, adds exactly the missing prefixes of
      `p`, and keeps the labels distinct and closed under prefixes. */
  lemma {:induction false} GrowProperties(labels: seq<string>, p: string)
    requires GoodLabels(labels)
    ensures var g := Grow(labels, p);
      && GoodLabels(g)
      && |labels| <= |g| && g[..|labels|] == labels
      && (forall j :: 0 <= j <= |p| ==> p[..j] in g)
      && (forall x :: x in g ==> x in labels || IsPrefix(x, p))
    decreases |p|
  {
    if p != [] {
      var q := p[..|p| - 1];
      GrowProperties(labels, q);
      var l := Grow(labels, q);
      assert forall j :: 0 <= j < |p| ==> p[..j] == q[..j];
      assert p[..|p|] == p;
      assert forall x :: IsPrefix(x, q) ==> IsPrefix(x, p);
      if p !in l {
        var g := l + [p];
        forall t, j | 0 <= t < |g| && 0 <= j <= |g[t]|
          ensures g[t][..j] in g
        {
          if t < |l| {
            assert g[t] == l[t];
          } else {
            assert g[t] == p;
          }
        }
      }
    }
  }

  /** The labels of the trie over `words` are exactly the empty string and
      the prefixes of the words, each once. */
  lemma {:induction false} TrieLabelsProperties(words: seq<string>)
    ensures GoodLabels(TrieLabels(words))
    ensures forall x :: x in TrieLabels(words) <==>
                          (x == [] || exists j :: 0 <= j < |words| && IsPrefix(x, words[j]))
    decreases |words|
  {
    if words == [] {
      assert TrieLabels(words) == [[]];
      assert Distinct(TrieLabels(words));
      assert PrefixClosed(TrieLabels(words));
    } else {
      var n := |words| - 1;
      var init := words[..n];
      TrieLabelsProperties(init);
      GrowProperties(TrieLabels(init), words[n]);
      var l := TrieLabels(words);
      assert l == Grow(TrieLabels(init), words[n]);
      forall x | x in l
        ensures x == [] || exists j :: 0 <= j < |words| && IsPrefix(x, words[j])
      {
        if x !in TrieLabels(init) {
          assert IsPrefix(x, words[n]);
        } else if x != [] {
          var j :| 0 <= j < |init| && IsPrefix(x, init[j]);
          assert words[j] == init[j];
        }
      }
      forall x | x == [] || exists j :: 0 <= j < |words| && IsPrefix(x, words[j])
        ensures x in l
      {
        if x == [] {
          assert TrieLabels(init)[0] == [];
          assert l[0] == [];
        } else {
          var j :| 0 <= j < |words| && IsPrefix(x, words[j]);
          if j == n {
            assert x == words[n][..|x|];
          } else {
            assert IsPrefix(x, init[j]);
            assert x in TrieLabels(init);
            var t :| 0 <= t < |TrieLabels(init)| && TrieLabels(init)[t] == x;
            assert l[t] == x;
          }
        }
      }
    }
  }

  /** State `t` is a child of state `s`: its label is `s`'s label and one
      more character. */
  ghost predicate Child(labels: seq<string>, s: int, t: int) {
    0 <= s < |labels| && 0 <= t < |labels| && labels[t] != []
    && labels[t][..|labels[t]| - 1] == labels[s]
  }

  /** `g` is the trie whose state `s` has label `labels[s]`: the states
      are 0 .. |labels|-1, every transition appends its character to the
      label, and every child is reached from its parent. */
  ghost predicate IsTrie(g: Goto, labels: seq<string>) {
    && (forall s: State :: s in g <==> s < |labels|)
    && (forall s, c :: s in g && c in g[s] ==> g[s][c] < |labels| && labels[g[s][c]] == labels[s] + [c])
    && (forall s, t {:trigger Child(labels, s, t)} :: Child(labels, s, t)
          ==> labels[t][|labels[t]| - 1] in g[s] && g[s][labels[t][|labels[t]| - 1]] == t)
  }

  /** Every state the table names exists, the root included. */
  ghost predicate Closed(g: Goto) {
    0 in g && forall s, c :: s in g && c in g[s] ==> g[s][c] in g
  }

  lemma TrieIsClosed(g: Goto, labels: seq<string>)
    requires IsTrie(g, labels) && |labels| > 0
    ensures Closed(g)
  {
  }

  /** Following `p` character by character from the root. */
  function Walk(g: Goto, p: string): Option<State>
    decreases |p|
  {
    if p == [] then (if 0 in g then Some(0) else None)
    else match Walk(g, p[..|p| - 1])
      case None => None
      case Some(s) => if s in g && p[|p| - 1] in g[s] then Some(g[s][p[|p| - 1]]) else None
  }

  /** In a trie a path reaches the state labelled with what it spells,
      and every label is reached. */
  lemma {:induction false} WalkReachesLabel(g: Goto, labels: seq<string>, p: string)
    requires IsTrie(g, labels) && GoodLabels(labels)
    ensures Walk(g, p).Some? ==> Walk(g, p).value < |labels| && labels[Walk(g, p).value] == p
    ensures p in labels ==> Walk(g, p).Some?
    decreases |p|
  {
    if p == [] {
      assert labels[0] == [];
    } else {
      var q := p[..|p| - 1];
      var c := p[|p| - 1];
      WalkReachesLabel(g, labels, q);
      assert q + [c] == p;
      if p in labels {
        var t :| 0 <= t < |labels| && labels[t] == p;
        assert labels[t][..|p| - 1] == q;
        var s :| 0 <= s < |labels| && labels[s] == q;
        assert Child(labels, s, t);
        assert Walk(g, q) == Some(s);
      }
    }
  }

  /** One step of the detector (the body of the scanning loop): leave a
      state that cannot continue with `c` for the root, then follow `c`
      if the state has a transition for it. */
  function Step(g: Goto, d: State, c: char): (e: State)
    requires Closed(g) && d in g
    ensures e in g
  {
    var from := if d > 0 && c !in g[d] then 0 else d;
    if c in g[from] then g[from][c] else from
  }

  /** The detector's state after reading `s` from the start. */
  function DState(g: Goto, s: string): (d: State)
    requires Closed(g)
    ensures d in g
    decreases |s|
  {
    if s == [] then 0 else Step(g, DState(g, s[..|s| - 1]), s[|s| - 1])
  }

  /** Reading `c` after `p` keeps the label of the detector's state a
      suffix of what was read. */
  lemma StepKeepsSuffix(g: Goto, labels: seq<string>, p: string, c: char, d: State)
    requires IsTrie(g, labels) && |labels| > 0 && labels[0] == [] && Closed(g) && d in g
    requires d < |labels| && |labels[d]| <= |p| && p[|p| - |labels[d]|..] == labels[d]
    ensures Step(g, d, c) < |labels|
    ensures |labels[Step(g, d, c)]| <= |p| + 1 && (p + [c])[|p| + 1 - |labels[Step(g, d, c)]|..] == labels[Step(g, d, c)]
  {
    var from := if d > 0 && c !in g[d] then 0 else d;
    var lf := labels[from];
    assert p[|p| - |lf|..] == lf;
    if c in g[from] {
      assert labels[g[from][c]] == lf + [c];
      assert (p + [c])[|p| - |lf|..] == p[|p| - |lf|..] + [c];
    } else {
      assert (p + [c])[|p| + 1..] == [];
    }
  }

  /** Detection is sound: the label of the detector's state is always the
      text just read, so a marker is reported only where it occurs. */
  lemma {:induction false} DetectorSpellsSuffix(g: Goto, labels: seq<string>, s: string)
    requires IsTrie(g, labels) && |labels| > 0 && labels[0] == [] && Closed(g)
    ensures DState(g, s) < |labels|
    ensures |labels[DState(g, s)]| <= |s| && s[|s| - |labels[DState(g, s)]|..] == labels[DState(g, s)]
    decreases |s|
  {
    if s != [] {
      var p, c := s[..|s| - 1], s[|s| - 1];
      assert p + [c] == s;
      DetectorSpellsSuffix(g, labels, p);
      StepSpellsSuffix(g, labels, p, c);
    }
  }

  /** One step of the detector keeps its label a suffix of the text read. */
  lemma StepSpellsSuffix(g: Goto, labels: seq<string>, p: string, c: char)
    requires IsTrie(g, labels) && |labels| > 0 && labels[0] == [] && Closed(g)
    requires DState(g, p) < |labels| && |labels[DState(g, p)]| <= |p|
             && p[|p| - |labels[DState(g, p)]|..] == labels[DState(g, p)]
    ensures DState(g, p + [c]) < |labels|
    ensures |labels[DState(g, p + [c])]| <= |p| + 1
            && (p + [c])[|p| + 1 - |labels[DState(g, p + [c])]|..] == labels[DState(g, p + [c])]
  {
    assert (p + [c])[..|p|] == p;
    StepKeepsSuffix(g, labels, p, c, DState(g, p));
  }

  /** The table after state `n` is created as the `c`-child of state `s`. */
  function AddState(g: Goto, s: State, c: char, n: State): (g': Goto)
    requires s in g
    ensures g'.Keys == g.Keys + {n}
    ensures n in g' && g'[n] == map[]
    ensures s != n ==> g'[s].Keys == g[s].Keys + {c} && g'[s][c] == n
  {
    var row: map<char, State> := g[s][c := n];
    g[s := row][n := map[]]
  }

  /** Creating state |labels| as the `c`-child of state `s` keeps the
      table a trie over the labels extended by the new one. */
  lemma AddChild(g: Goto, labels: seq<string>, s: State, c: char, n: State)
    requires IsTrie(g, labels) && GoodLabels(labels) && s < |labels|
    requires labels[s] + [c] !in labels && n == |labels|
    ensures
      IsTrie(AddState(g, s, c, n), labels + [labels[s] + [c]])
  {
    AddChildMoves(g, labels, s, c, n);
    AddChildChildren(g, labels, s, c, n);
  }

  /** After creating the state, every transition still spells its target's label. */
  lemma AddChildMoves(g: Goto, labels: seq<string>, s: State, c: char, n: State)
    requires IsTrie(g, labels) && s < |labels| && n == |labels|
    ensures var g', l' := AddState(g, s, c, n), labels + [labels[s] + [c]];
      forall s1, c1 :: s1 in g' && c1 in g'[s1] ==> g'[s1][c1] < |l'| && l'[g'[s1][c1]] == l'[s1] + [c1]
  {
    var p := labels[s] + [c];
    var g' := AddState(g, s, c, n);
    var l' := labels + [p];
    forall s1, c1 | s1 in g' && c1 in g'[s1]
      ensures g'[s1][c1] < |l'| && l'[g'[s1][c1]] == l'[s1] + [c1]
    {
      if s1 == s && c1 == c {
        assert l'[n] == p;
      } else {
        assert s1 < n && c1 in g[s1] && g'[s1][c1] == g[s1][c1];
      }
    }
  }

  /** After creating the state, every child is reached from its parent. */
  lemma AddChildChildren(g: Goto, labels: seq<string>, s: State, c: char, n: State)
    requires IsTrie(g, labels) && GoodLabels(labels) && s < |labels|
    requires labels[s] + [c] !in labels && n == |labels|
    ensures var g', l' := AddState(g, s, c, n), labels + [labels[s] + [c]];
      forall s1, t {:trigger Child(l', s1, t)} :: Child(l', s1, t)
        ==> l'[t][|l'[t]| - 1] in g'[s1] && g'[s1][l'[t][|l'[t]| - 1]] == t
  {
    var p := labels[s] + [c];
    var g' := AddState(g, s, c, n);
    var l' := labels + [p];
    assert l'[n] == p && p[..|p| - 1] == labels[s];
    forall s1, t | Child(l', s1, t)
      ensures l'[t][|l'[t]| - 1] in g'[s1] && g'[s1][l'[t][|l'[t]| - 1]] == t
    {
      if t == n {
        assert l'[s1] == labels[s];
        assert s1 == s;
      } else {
        assert l'[t] == labels[t];
        var q := labels[t][..|labels[t]| - 1];
        assert q in labels;
        assert q != p;
        assert s1 != n;
        assert Child(labels, s1, t);
        assert labels[t] == q + [labels[t][|labels[t]| - 1]] && labels[t] != p;
      }
    }
  }

  /** A state has a transition out of it exactly when its label is a
      strict prefix of one of the inserted words. */
  lemma HasTransitionIffStrictPrefix(g: Goto, words: seq<string>, t: State)
    requires IsTrie(g, TrieLabels(words)) && t < |TrieLabels(words)|
    ensures |g[t]| != 0 <==> exists j :: 0 <= j < |words| && IsStrictPrefix(TrieLabels(words)[t], words[j])
  {
    if |g[t]| != 0 {
      var j := TransitionLeadsOn(g, words, t);
    }
    if exists j :: 0 <= j < |words| && IsStrictPrefix(TrieLabels(words)[t], words[j]) {
      var j :| 0 <= j < |words| && IsStrictPrefix(TrieLabels(words)[t], words[j]);
      PrefixLeadsOn(g, words, t, j);
    }
  }

  /** A transition out of a state leads on towards the `j`th word. */
  lemma TransitionLeadsOn(g: Goto, words: seq<string>, t: State) returns (j: nat)
    requires IsTrie(g, TrieLabels(words)) && t < |TrieLabels(words)| && |g[t]| != 0
    ensures j < |words| && IsStrictPrefix(TrieLabels(words)[t], words[j])
  {
    var labels := TrieLabels(words);
    TrieLabelsProperties(words);
    assert g[t] != map[];
    var c :| c in g[t];
    var u := g[t][c];
    assert labels[u] == labels[t] + [c];
    assert labels[u] in labels;
    j :| 0 <= j < |words| && IsPrefix(labels[u], words[j]);
    assert words[j][..|labels[t]|] == labels[u][..|labels[t]|] == labels[t];
  }

  /** A state labelled with a strict prefix of a word has a way out. */
  lemma PrefixLeadsOn(g: Goto, words: seq<string>, t: State, j: nat)
    requires IsTrie(g, TrieLabels(words)) && t < |TrieLabels(words)|
    requires j < |words| && IsStrictPrefix(TrieLabels(words)[t], words[j])
    ensures |g[t]| != 0
  {
    var labels := TrieLabels(words);
    TrieLabelsProperties(words);
    var p := words[j][..|labels[t]| + 1];
    assert IsPrefix(p, words[j]);
    assert p in labels;
    var u :| 0 <= u < |labels| && labels[u] == p;
    assert p[..|p| - 1] == labels[t];
    assert Child(labels, t, u);
    assert p[|p| - 1] in g[t];
  }

  /** A character with no transition out of a state spells a label the
      trie does not have yet. */
  lemma NewLabel(g: Goto, labels: seq<string>, s: State, c: char)
    requires IsTrie(g, labels) && s < |labels| && c !in g[s]
    ensures labels[s] + [c] !in labels
  {
    var p := labels[s] + [c];
    assert p[..|p| - 1] == labels[s] && p[|p| - 1] == c;
    assert forall t :: 0 <= t < |labels| && labels[t] == p ==> Child(labels, s, t);
  }

  /** State 0 is the root, labelled with the empty string. */
  lemma RootLabel(words: seq<string>)
    ensures |TrieLabels(words)| > 0 && TrieLabels(words)[0] == []
  {
    TrieLabelsProperties(words);
  }

  /** The states of the trie of the single marker "aab". */
  lemma AabLabels()
    ensures TrieLabels(["aab"]) == ["", "a", "aa", "aab"]
  {
    assert Grow([[]], "a") == ["", "a"] by { assert "a"[..0] == []; }
    assert Grow([[]], "aa") == ["", "a", "aa"] by { assert "aa"[..1] == "a"; }
    assert "aab"[..2] == "aa";
    assert ["aab"][..0] == [];
  }

  /** Growing by a one-character word adds it when it is new. */
  lemma GrowOne(l: seq<string>, w: string)
    requires |w| == 1
    ensures Grow(l, w) == if w in l then l else l + [w]
  {
    assert w[..0] == [];
  }

  /** Growing by a two-character word whose first character is a label
      adds the word when it is new. */
  lemma GrowTwo(l: seq<string>, w: string)
    requires |w| == 2 && [w[0]] in l
    ensures Grow(l, w) == if w in l then l else l + [w]
  {
    assert w[..1] == [w[0]];
    GrowOne(l, w[..1]);
  }

  /** Growing by a three-character word whose shorter prefixes are labels
      adds the word when it is new. */
  lemma GrowThree(l: seq<string>, w: string)
    requires |w| == 3 && [w[0]] in l && [w[0], w[1]] in l
    ensures Grow(l, w) == if w in l then l else l + [w]
  {
    assert w[..2] == [w[0], w[1]];
    GrowTwo(l, w[..2]);
  }

  /** Growing by a four-character word whose shorter prefixes are labels
      adds the word when it is new. */
  lemma GrowFour(l: seq<string>, w: string)
    requires |w| == 4 && [w[0]] in l && [w[0], w[1]] in l && [w[0], w[1], w[2]] in l
    ensures Grow(l, w) == if w in l then l else l + [w]
  {
    assert w[..3] == [w[0], w[1], w[2]];
    GrowThree(l, w[..3]);
  }

  /** The states of the trie of the markers `a`, `ab`, `abc`, `abcd`, built
      one marker at a time. */
  lemma LabelsA()
    ensures TrieLabels(["a"]) == ["", "a"]
  {
    assert ["a"][..0] == [] && "a"[..0] == [];
  }

  lemma LabelsAAb()
    ensures TrieLabels(["a", "ab"]) == ["", "a", "ab"]
  {
    LabelsA();
    assert ["a", "ab"][..1] == ["a"];
    GrowTwo(["", "a"], "ab");
  }

  lemma LabelsAAbAbc()
    ensures TrieLabels(["a", "ab", "abc"]) == ["", "a", "ab", "abc"]
  {
    LabelsAAb();
    assert ["a", "ab", "abc"][..2] == ["a", "ab"];
    GrowThree(["", "a", "ab"], "abc");
  }

  lemma LabelsBlockOnCodeBegin()
    ensures TrieLabels(["a", "ab", "abc", "abcd"]) == ["", "a", "ab", "abc", "abcd"]
  {
    LabelsAAbAbc();
    assert ["a", "ab", "abc", "abcd"][..3] == ["a", "ab", "abc"];
    GrowFour(["", "a", "ab", "abc"], "abcd");
  }

  /** The states of the trie of the markers `a1`, `ab`, `abc`, `abcd`. */
  lemma LabelsA1()
    ensures TrieLabels(["a1"]) == ["", "a", "a1"]
  {
    assert ["a1"][..0] == [];
    assert Grow([[]], "a") == ["", "a"] by { assert "a"[..0] == []; }
    assert "a1"[..1] == "a";
  }

  lemma LabelsA1Ab()
    ensures TrieLabels(["a1", "ab"]) == ["", "a", "a1", "ab"]
  {
    LabelsA1();
    assert ["a1", "ab"][..1] == ["a1"];
    GrowTwo(["", "a", "a1"], "ab");
  }

  lemma LabelsA1AbAbc()
    ensures TrieLabels(["a1", "ab", "abc"]) == ["", "a", "a1", "ab", "abc"]
  {
    LabelsA1Ab();
    assert ["a1", "ab", "abc"][..2] == ["a1", "ab"];
    GrowThree(["", "a", "a1", "ab"], "abc");
  }

  lemma LabelsBlockOnCodeEnd()
    ensures TrieLabels(["a1", "ab", "abc", "abcd"]) == ["", "a", "a1", "ab", "abc", "abcd"]
  {
    LabelsA1AbAbc();
    assert ["a1", "ab", "abc", "abcd"][..3] == ["a1", "ab", "abc"];
    GrowFour(["", "a", "a1", "ab", "abc"], "abcd");
  }

  /** The states of the trie of the markers `a1`, `a2`, `abc`, `abcd`, and of
      the same markers with the last two swapped: `ab` is created on the way
      to the third marker. */
  lemma LabelsA1A2()
    ensures TrieLabels(["a1", "a2"]) == ["", "a", "a1", "a2"]
  {
    LabelsA1();
    assert ["a1", "a2"][..1] == ["a1"];
    GrowTwo(["", "a", "a1"], "a2");
  }

  lemma LabelsA1A2Abc()
    ensures TrieLabels(["a1", "a2", "abc"]) == ["", "a", "a1", "a2", "ab", "abc"]
  {
    LabelsA1A2();
    var l: seq<string> := ["", "a", "a1", "a2"];
    assert ["a1", "a2", "abc"][..2] == ["a1", "a2"];
    GrowTwo(l, "ab");
    assert "abc"[..2] == "ab";
  }

  lemma LabelsBlockOnOutputBegin()
    ensures TrieLabels(["a1", "a2", "abc", "abcd"]) == ["", "a", "a1", "a2", "ab", "abc", "abcd"]
  {
    LabelsA1A2Abc();
    assert ["a1", "a2", "abc", "abcd"][..3] == ["a1", "a2", "abc"];
    GrowFour(["", "a", "a1", "a2", "ab", "abc"], "abcd");
  }

  lemma LabelsA1A2Abcd()
    ensures TrieLabels(["a1", "a2", "abcd"]) == ["", "a", "a1", "a2", "ab", "abc", "abcd"]
  {
    LabelsA1A2();
    var l: seq<string> := ["", "a", "a1", "a2"];
    assert ["a1", "a2", "abcd"][..2] == ["a1", "a2"];
    GrowTwo(l, "ab");
    assert Grow(l, "abc") == l + ["ab", "abc"] by { assert "abc"[..2] == "ab"; }
    assert "abcd"[..3] == "abc";
  }

  lemma LabelsBlockOnOutputEnd()
    ensures TrieLabels(["a1", "a2", "abcd", "abc"]) == ["", "a", "a1", "a2", "ab", "abc", "abcd"]
  {
    LabelsA1A2Abcd();
    assert ["a1", "a2", "abcd", "abc"][..3] == ["a1", "a2", "abcd"];
    GrowThree(["", "a", "a1", "a2", "ab", "abc", "abcd"], "abc");
  }

  /** The states of the trie of the default markers `[!`, `!]`, `[>`,
      `<]`, built one marker at a time. */
  lemma LabelsCodeBegin()
    ensures TrieLabels(["[!"]) == ["", "[", "[!"]
  {
    assert ["[!"][..0] == [];
    GrowOne([[]], "[");
    assert "[!"[..1] == "[";
  }

  lemma LabelsCodeMarkers()
    ensures TrieLabels(["[!", "!]"]) == ["", "[", "[!", "!", "!]"]
  {
    LabelsCodeBegin();
    var l: seq<string> := ["", "[", "[!"];
    assert ["[!", "!]"][..1] == ["[!"];
    GrowOne(l, "!");
    assert "!]"[..1] == "!";
  }

  lemma LabelsOutputBegin()
    ensures TrieLabels(["[!", "!]", "[>"]) == ["", "[", "[!", "!", "!]", "[>"]
  {
    LabelsCodeMarkers();
    assert ["[!", "!]", "[>"][..2] == ["[!", "!]"];
    GrowTwo(["", "[", "[!", "!", "!]"], "[>");
  }

  lemma DefaultLabels()
    ensures TrieLabels(["[!", "!]", "[>", "<]"]) == ["", "[", "[!", "!", "!]", "[>", "<", "<]"]
  {
    LabelsOutputBegin();
    var l: seq<string> := ["", "[", "[!", "!", "!]", "[>"];
    assert ["[!", "!]", "[>", "<]"][..3] == ["[!", "!]", "[>"];
    GrowOne(l, "<");
    assert "<]"[..1] == "<";
  }

  /** A transition of a trie spells a label: its source's label and its
      character. */
  lemma StepSpellsLabel(g: Goto, labels: seq<string>, s: State, c: char)
    requires IsTrie(g, labels) && s in g
    ensures c in g[s] ==> labels[s] + [c] in labels
  {
    if c in g[s] {
      var t := g[s][c];
      assert labels[t] == labels[s] + [c];
    }
  }

  /** A table for the single marker "aab": one state per prefix. */
  const AabGoto: Goto := map[0 := map['a' := 1], 1 := map['a' := 2], 2 := map['b' := 3], 3 := map[]]

  /** That table is the trie of "aab", so such a table exists. */
  lemma AabIsTrie()
    ensures IsTrie(AabGoto, ["", "a", "aa", "aab"]) && Closed(AabGoto)
  {
    AabMoves();
    AabChildren();
  }

  lemma AabMoves()
    ensures forall s, c :: s in AabGoto && c in AabGoto[s] ==>
              AabGoto[s][c] < 4 && ["", "a", "aa", "aab"][AabGoto[s][c]] == ["", "a", "aa", "aab"][s] + [c]
  {
    var g, labels := AabGoto, ["", "a", "aa", "aab"];
    forall s, c | s in g && c in g[s]
      ensures g[s][c] < |labels| && labels[g[s][c]] == labels[s] + [c]
    {
      if s == 0 {
        assert c == 'a' && g[s][c] == 1;
      } else if s == 1 {
        assert c == 'a' && g[s][c] == 2;
      } else {
        assert s == 2 && c == 'b' && g[s][c] == 3;
      }
    }
  }

  lemma AabChildren()
    ensures var labels := ["", "a", "aa", "aab"];
      forall s, t {:trigger Child(labels, s, t)} :: Child(labels, s, t)
        ==> labels[t][|labels[t]| - 1] in AabGoto[s] && AabGoto[s][labels[t][|labels[t]| - 1]] == t
  {
    var g, labels := AabGoto, ["", "a", "aa", "aab"];
    forall s, t | Child(labels, s, t)
      ensures labels[t][|labels[t]| - 1] in g[s] && g[s][labels[t][|labels[t]| - 1]] == t
    {
      assert labels[t][..|labels[t]| - 1] == labels[s];
      if t == 1 {
        assert s == 0;
      } else if t == 2 {
        assert labels[s] == "a";
      } else {
        assert t == 3 && labels[s] == "aa";
      }
    }
  }

  /** The strings the counterexample steps would spell are not states. */
  lemma AabNonLabels()
    ensures "aaa" !in ["", "a", "aa", "aab"] && "ab" !in ["", "a", "aa", "aab"] && "b" !in ["", "a", "aa", "aab"]
  {
    var labels := ["", "a", "aa", "aab"];
    forall t | 0 <= t < |labels|
      ensures labels[t] != "aaa" && labels[t] != "ab" && labels[t] != "b"
    {
      assert "aaa"[2] != "aab"[2] && "ab"[0] != "b"[0] && "ab"[1] != "aa"[1] && "b"[0] != "a"[0];
    }
  }

  /** The detector is sound but not complete: after a failed step it
      restarts from the root with the current character only, so in
      "aaab" the marker "aab" that ends the text is never recorded, on
      any table that is the trie of "aab". */
  lemma MissedOverlap(g: Goto)
    requires IsTrie(g, ["", "a", "aa", "aab"])
    ensures "aaab"[1..] == "aab"
    ensures Closed(g) && DState(g, "a") == 1 && DState(g, "aa") == 2 && DState(g, "aaa") == 1
    ensures DState(g, "aaab") == 0
  {
    AabTable(g);
    AabNoSteps(g);
    AabWalk(g);
  }

  /** The transitions a trie of "aab" has on the counterexample's path. */
  lemma AabTable(g: Goto)
    requires IsTrie(g, ["", "a", "aa", "aab"])
    ensures Closed(g) && 0 in g && 1 in g && 2 in g
    ensures 'a' in g[0] && g[0]['a'] == 1 && 'a' in g[1] && g[1]['a'] == 2
  {
    var labels := ["", "a", "aa", "aab"];
    TrieIsClosed(g, labels);
    assert Child(labels, 0, 1) && Child(labels, 1, 2);
  }

  /** The transitions a trie of "aab" lacks on the counterexample's path. */
  lemma AabNoSteps(g: Goto)
    requires IsTrie(g, ["", "a", "aa", "aab"]) && 0 in g && 1 in g && 2 in g
    ensures 'a' !in g[2] && 'b' !in g[1] && 'b' !in g[0]
  {
    var labels := ["", "a", "aa", "aab"];
    StepSpellsLabel(g, labels, 2, 'a');
    StepSpellsLabel(g, labels, 1, 'b');
    StepSpellsLabel(g, labels, 0, 'b');
    assert labels[2] + ['a'] == "aaa" && labels[1] + ['b'] == "ab" && labels[0] + ['b'] == "b";
    AabNonLabels();
  }

  /** The detector's states along "aaab", from those transitions alone. */
  lemma AabWalk(g: Goto)
    requires Closed(g) && 1 in g && 2 in g
    requires 'a' in g[0] && g[0]['a'] == 1 && 'a' in g[1] && g[1]['a'] == 2
    requires 'a' !in g[2] && 'b' !in g[1] && 'b' !in g[0]
    ensures DState(g, "a") == 1 && DState(g, "aa") == 2 && DState(g, "aaa") == 1 && DState(g, "aaab") == 0
  {
    assert Step(g, 0, 'a') == 1 && Step(g, 1, 'a') == 2 && Step(g, 2, 'a') == 1 && Step(g, 1, 'b') == 0;
    assert "a"[..0] == [] && "aa"[..1] == "a" && "aaa"[..2] == "aa" && "aaab"[..3] == "aaa";
    assert DState(g, "a") == 1;
    assert DState(g, "aa") == 2;
    assert DState(g, "aaa") == 1;
  }
}
