/**
 * The generator itself: the options object and its defaults, the rules
 * that turn the slicer's output into the program (the Text trim after a
 * Code slice, the validity filter, the concatenation of the rendered
 * slices), and the `Stcg` object with its global symbols.
 */
module Generator {
  import opened StcgBase
  import opened Slices
  import opened MarkerTrie
  import opened TemplateSlicer

  // ---------------------------------------------------------------------
  // Options
  // ---------------------------------------------------------------------

  /** The six option properties as they stand at one moment; `None` is
      an absent (`undefined`) property. */
  datatype OptionFields = OptionFields(codeBegin: Option<string>, codeEnd: Option<string>,
                                       outputBegin: Option<string>, outputEnd: Option<string>,
                                       trimAfterCode: Option<bool>, debugLen: Option<int>)

  /** The options object the caller passes in; the constructor writes the
      defaults into it. */
  class StcgOptions {
    var codeBegin: Option<string>
    var codeEnd: Option<string>
    var outputBegin: Option<string>
    var outputEnd: Option<string>
    var trimAfterCode: Option<bool>
    var debugLen: Option<int>

    constructor (fields: OptionFields)
      ensures Fields() == fields
    {
      codeBegin := fields.codeBegin;
      codeEnd := fields.codeEnd;
      outputBegin := fields.outputBegin;
      outputEnd := fields.outputEnd;
      trimAfterCode := fields.trimAfterCode;
      debugLen := fields.debugLen;
    }

    function Fields(): OptionFields
      reads this
    {
      OptionFields(codeBegin, codeEnd, outputBegin, outputEnd, trimAfterCode, debugLen)
    }

    /** The six `options.x = options.x || default` assignments. */
    method ApplyDefaults()
      modifies this
      ensures Fields() == Defaulted(old(Fields()))
    {
      codeBegin := Some(OrString(codeBegin, "[!"));
      codeEnd := Some(OrString(codeEnd, "!]"));
      outputBegin := Some(OrString(outputBegin, "[>"));
      outputEnd := Some(OrString(outputEnd, "<]"));
      trimAfterCode := Some(OrBool(trimAfterCode, true));
      debugLen := Some(OrNumber(debugLen, 5));
    }
  }

  /** `s || d` on a string property: absent and empty strings are falsy. */
  function OrString(v: Option<string>, d: string): (r: string)
    ensures v.Some? && v.value != [] ==> r == v.value
    ensures v.None? || v.value == [] ==> r == d
    ensures d != [] ==> r != []
  {
    if v.Some? && v.value != [] then v.value else d
  }

  /** `b || d` on a boolean property: absent and `false` are falsy. */
  function OrBool(v: Option<bool>, d: bool): (r: bool)
    ensures d ==> r
    ensures v == Some(true) ==> r
  {
    if v.Some? && v.value then true else d
  }

  /** `n || d` on a numeric property: absent and 0 are falsy. */
  function OrNumber(v: Option<int>, d: int): (r: int)
    ensures v.Some? && v.value != 0 ==> r == v.value
    ensures v.None? || v.value == 0 ==> r == d
  {
    if v.Some? && v.value != 0 then v.value else d
  }

  /** The options after the defaults are written into them. */
  function Defaulted(f: OptionFields): (g: OptionFields)
    ensures g.codeBegin.Some? && g.codeEnd.Some? && g.outputBegin.Some? && g.outputEnd.Some?
    ensures g.codeBegin.value != [] && g.codeEnd.value != [] && g.outputBegin.value != [] && g.outputEnd.value != []
    ensures g.trimAfterCode == Some(true)
    ensures g.debugLen.Some?
  {
    OptionFields(Some(OrString(f.codeBegin, "[!")), Some(OrString(f.codeEnd, "!]")),
                 Some(OrString(f.outputBegin, "[>")), Some(OrString(f.outputEnd, "<]")),
                 Some(OrBool(f.trimAfterCode, true)), Some(OrNumber(f.debugLen, 5)))
  }

  /** Writing the defaults a second time changes nothing. */
  lemma DefaultedIdempotent(f: OptionFields)
    ensures Defaulted(Defaulted(f)) == Defaulted(f)
  {
    var g := Defaulted(f);
    assert OrNumber(g.debugLen, 5) == g.debugLen.value by {
      if f.debugLen.None? || f.debugLen.value == 0 {
        assert g.debugLen.value == 5;
      }
    }
  }

  /** The object used when no options are passed at all. */
  const DefaultObject := OptionFields(Some("[!"), Some("!]"), Some("[>"), Some("<]"), Some(true), Some(6))

  /** What the constructor goes on with once the options are settled. */
  datatype Settings = Settings(markers: Markers, trimAfterCode: bool, debugLen: int)

  /** The settings the constructor derives from the options it is given
      (`None`: no options object). */
  function Resolve(given: Option<OptionFields>): (r: Result<Settings>)
    ensures given.None? ==> r == Success(Settings(Markers("[!", "!]", "[>", "<]"), true, 6))
    ensures r.Failure? <==> given.Some? && given.value.debugLen.Some? && given.value.debugLen.value < 0
    ensures r.Failure? ==> r.error == BadDebugLen
    ensures r.Success? ==> && r.value.trimAfterCode && r.value.debugLen >= 1
                           && var ws := Words(r.value.markers); forall j :: 0 <= j < 4 ==> ws[j] != []
    ensures given.Some? && (given.value.debugLen.None? || given.value.debugLen == Some(0)) ==>
              r.Success? && r.value.debugLen == 5
    ensures given.Some? && given.value.debugLen.Some? && given.value.debugLen.value >= 1 ==>
              r.Success? && r.value.debugLen == given.value.debugLen.value
    ensures given.Some? && r.Success? ==>
              && r.value.markers.codeBegin == OrString(given.value.codeBegin, "[!")
              && r.value.markers.codeEnd == OrString(given.value.codeEnd, "!]")
              && r.value.markers.outputBegin == OrString(given.value.outputBegin, "[>")
              && r.value.markers.outputEnd == OrString(given.value.outputEnd, "<]")
  {
    var f := Defaulted(if given.None? then DefaultObject else given.value);
    if f.debugLen.value < 1 then Failure(BadDebugLen)
    else Success(Settings(Markers(f.codeBegin.value, f.codeEnd.value, f.outputBegin.value, f.outputEnd.value),
                          f.trimAfterCode.value, f.debugLen.value))
  }

  // ---------------------------------------------------------------------
  // The rules applied to the slices
  // ---------------------------------------------------------------------

  /** Slice `k` as the filter sees it when it asks for validity: a Text
      slice right after a Code slice has its leading spaces and escaped
      line break removed when trimming is on. */
  function Adjusted(slices: seq<Slice>, k: nat, trimLead: bool): (s: Slice)
    requires k < |slices|
    ensures s.Text? == slices[k].Text? && s.Code? == slices[k].Code? && s.Output? == slices[k].Output?
    ensures Flattened(slices[k]) ==> Flattened(s)
    ensures !(trimLead && k > 0 && slices[k - 1].Code?) ==> s == slices[k]
    ensures !slices[k].Text? ==> s == slices[k]
  {
    if trimLead && slices[k].Text? && k > 0 && slices[k - 1].Code? then
      var b := TrimLeading(slices[k].body);
      Text(b)
    else slices[k]
  }

  /** The slices the filter keeps, in order: each slice as adjusted, when
      it is valid. */
  function Kept(slices: seq<Slice>, trimLead: bool): seq<Slice>
    decreases |slices|
  {
    if slices == [] then []
    else
      var n := |slices| - 1;
      var s := Adjusted(slices, n, trimLead);
      Kept(slices[..n], trimLead) + (if IsValid(s) then [s] else [])
  }

  /** Only the last slice's predecessor decides its adjustment, so the
      adjustment of a slice is the same in every prefix holding it. */
  lemma AdjustedInPrefix(slices: seq<Slice>, n: nat, k: nat, trimLead: bool)
    requires k < n <= |slices|
    ensures Adjusted(slices[..n], k, trimLead) == Adjusted(slices, k, trimLead)
  {
  }

  /** One more slice: the filter's answer for it is appended to what it
      kept before. */
  lemma KeptSnoc(slices: seq<Slice>, k: nat, trimLead: bool)
    requires k < |slices|
    ensures var s := Adjusted(slices, k, trimLead);
      Kept(slices[..k + 1], trimLead) == Kept(slices[..k], trimLead) + (if IsValid(s) then [s] else [])
  {
    assert slices[..k + 1][..k] == slices[..k];
    AdjustedInPrefix(slices, k + 1, k, trimLead);
  }

  /** Every kept slice is valid and is the adjusted form of a slice of the
      input; every valid adjusted slice is kept. */
  lemma KeptExactly(slices: seq<Slice>, trimLead: bool, x: Slice)
    ensures x in Kept(slices, trimLead) <==>
              IsValid(x) && exists k :: 0 <= k < |slices| && Adjusted(slices, k, trimLead) == x
  {
    if x in Kept(slices, trimLead) {
      var k := KeptSound(slices, trimLead, x);
    }
    if IsValid(x) && exists k :: 0 <= k < |slices| && Adjusted(slices, k, trimLead) == x {
      var k :| 0 <= k < |slices| && Adjusted(slices, k, trimLead) == x;
      KeptComplete(slices, trimLead, k);
    }
  }

  /** The filter's last answer ends what it keeps. */
  lemma KeptLast(slices: seq<Slice>, trimLead: bool)
    requires slices != []
    ensures var s := Adjusted(slices, |slices| - 1, trimLead);
      Kept(slices, trimLead) == Kept(slices[..|slices| - 1], trimLead) + (if IsValid(s) then [s] else [])
  {
  }

  /** Positions listed in increasing order. */
  predicate Increasing(idx: seq<nat>) {
    forall i, j :: 0 <= i < j < |idx| ==> idx[i] < idx[j]
  }

  /** A position past all those listed keeps the list increasing. */
  lemma IncreasingSnoc(idx: seq<nat>, n: nat)
    requires Increasing(idx) && forall j :: 0 <= j < |idx| ==> idx[j] < n
    ensures Increasing(idx + [n])
  {
  }

  /** The positions whose adjusted slices the filter keeps, in order. */
  function KeptIndices(slices: seq<Slice>, trimLead: bool): (idx: seq<nat>)
    ensures forall j :: 0 <= j < |idx| ==> idx[j] < |slices|
    decreases |slices|
  {
    if slices == [] then []
    else
      var n := |slices| - 1;
      KeptIndices(slices[..n], trimLead) + (if IsValid(Adjusted(slices, n, trimLead)) then [n] else [])
  }

  /** The filter by position: `idx` lists, in increasing order, the
      positions whose slices are kept; the `j`-th kept slice is the
      adjusted slice at `idx[j]`, and a position is listed exactly when its
      adjusted slice is valid. So every valid slice is kept once, even when
      an equal one is kept elsewhere. */
  lemma KeptPositions(slices: seq<Slice>, trimLead: bool) returns (idx: seq<nat>)
    ensures |idx| == |Kept(slices, trimLead)|
    ensures forall j :: 0 <= j < |idx| ==>
              idx[j] < |slices| && Kept(slices, trimLead)[j] == Adjusted(slices, idx[j], trimLead)
    ensures Increasing(idx)
    ensures forall k :: 0 <= k < |slices| ==> (k in idx <==> IsValid(Adjusted(slices, k, trimLead)))
  {
    idx := KeptIndices(slices, trimLead);
    IndicesMatch(slices, trimLead);
    IndicesIncrease(slices, trimLead);
    IndicesExact(slices, trimLead);
  }

  /** The `j`-th kept slice is the adjusted slice at the `j`-th position. */
  lemma {:induction false} IndicesMatch(slices: seq<Slice>, trimLead: bool)
    ensures |KeptIndices(slices, trimLead)| == |Kept(slices, trimLead)|
    ensures forall j :: 0 <= j < |KeptIndices(slices, trimLead)| ==>
              Kept(slices, trimLead)[j] == Adjusted(slices, KeptIndices(slices, trimLead)[j], trimLead)
    decreases |slices|
  {
    if slices != [] {
      var n := |slices| - 1;
      var idx, prev := KeptIndices(slices, trimLead), KeptIndices(slices[..n], trimLead);
      var kept, before := Kept(slices, trimLead), Kept(slices[..n], trimLead);
      IndicesMatch(slices[..n], trimLead);
      forall j | 0 <= j < |idx|
        ensures kept[j] == Adjusted(slices, idx[j], trimLead)
      {
        if j < |prev| {
          AdjustedInPrefix(slices, n, prev[j], trimLead);
          assert idx[j] == prev[j] && kept[j] == before[j];
        }
      }
    }
  }

  /** The positions are listed in increasing order. */
  lemma {:induction false} IndicesIncrease(slices: seq<Slice>, trimLead: bool)
    ensures Increasing(KeptIndices(slices, trimLead))
    decreases |slices|
  {
    if slices != [] {
      var n := |slices| - 1;
      IndicesIncrease(slices[..n], trimLead);
      if IsValid(Adjusted(slices, n, trimLead)) {
        IncreasingSnoc(KeptIndices(slices[..n], trimLead), n);
      }
    }
  }

  /** A position is listed exactly when its adjusted slice is valid. */
  lemma {:induction false} IndicesExact(slices: seq<Slice>, trimLead: bool)
    ensures forall k :: 0 <= k < |slices| ==>
              (k in KeptIndices(slices, trimLead) <==> IsValid(Adjusted(slices, k, trimLead)))
    decreases |slices|
  {
    if slices != [] {
      var n := |slices| - 1;
      var idx, prev := KeptIndices(slices, trimLead), KeptIndices(slices[..n], trimLead);
      IndicesExact(slices[..n], trimLead);
      assert n !in prev;
      forall k | 0 <= k < |slices|
        ensures k in idx <==> IsValid(Adjusted(slices, k, trimLead))
      {
        if k < n {
          AdjustedInPrefix(slices, n, k, trimLead);
          assert k in idx <==> k in prev;
        }
      }
    }
  }

  /** A kept slice is valid, and is the adjusted form of the slice at `k`. */
  lemma {:induction false} KeptSound(slices: seq<Slice>, trimLead: bool, x: Slice) returns (k: nat)
    requires x in Kept(slices, trimLead)
    ensures IsValid(x) && k < |slices| && Adjusted(slices, k, trimLead) == x
    decreases |slices|
  {
    var n := |slices| - 1;
    KeptLast(slices, trimLead);
    if x in Kept(slices[..n], trimLead) {
      k := KeptSound(slices[..n], trimLead, x);
      AdjustedInPrefix(slices, n, k, trimLead);
    } else {
      k := n;
    }
  }

  /** The adjusted form of the slice at `k` is kept when it is valid. */
  lemma {:induction false} KeptComplete(slices: seq<Slice>, trimLead: bool, k: nat)
    requires k < |slices| && IsValid(Adjusted(slices, k, trimLead))
    ensures Adjusted(slices, k, trimLead) in Kept(slices, trimLead)
    decreases |slices|
  {
    var n := |slices| - 1;
    if k < n {
      AdjustedInPrefix(slices, n, k, trimLead);
      KeptComplete(slices[..n], trimLead, k);
      KeptGrows(slices, trimLead, Adjusted(slices, k, trimLead));
    } else {
      KeptLast(slices, trimLead);
    }
  }

  /** What the filter keeps from a prefix it keeps from the whole. */
  lemma KeptGrows(slices: seq<Slice>, trimLead: bool, x: Slice)
    requires slices != [] && x in Kept(slices[..|slices| - 1], trimLead)
    ensures x in Kept(slices, trimLead)
  {
    var n := |slices| - 1;
    var last := Adjusted(slices, n, trimLead);
    KeptLast(slices, trimLead);
    InPrefix(x, Kept(slices[..n], trimLead), if IsValid(last) then [last] else []);
  }

  /** The filter keeps no more slices than it is given, and a Text or
      Code slice that was flattened stays so. */
  lemma {:induction false} KeptBounds(slices: seq<Slice>, trimLead: bool)
    ensures |Kept(slices, trimLead)| <= |slices|
    ensures (forall k :: 0 <= k < |slices| ==> Flattened(slices[k])) ==>
              forall k :: 0 <= k < |Kept(slices, trimLead)| ==> Flattened(Kept(slices, trimLead)[k])
    decreases |slices|
  {
    if slices != [] {
      KeptLast(slices, trimLead);
      KeptBounds(slices[..|slices| - 1], trimLead);
    }
    if forall k :: 0 <= k < |slices| ==> Flattened(slices[k]) {
      var kept := Kept(slices, trimLead);
      forall j | 0 <= j < |kept|
        ensures Flattened(kept[j])
      {
        var k := KeptSound(slices, trimLead, kept[j]);
      }
    }
  }

  /** The `filter` call with its `lastCode` flag: a slice after a Code
      slice is trimmed (Text only), every slice is kept when valid. */
  method Assemble(slices: seq<Slice>, trimLead: bool) returns (kept: seq<Slice>)
    ensures kept == Kept(slices, trimLead)
  {
    var lastCode := false;
    kept := [];
    var k := 0;
    while k < |slices|
      invariant k <= |slices|
      invariant lastCode == (k > 0 && slices[k - 1].Code?)
      invariant kept == Kept(slices[..k], trimLead)
    {
      var cVal := slices[k];
      if cVal.Code? {
        lastCode := true;
      } else if cVal.Text? {
        if lastCode && trimLead {
          cVal := Text(TrimLeading(cVal.body));
        }
        lastCode := false;
      } else {
        lastCode := false;
      }
      assert cVal == Adjusted(slices, k, trimLead);
      KeptSnoc(slices, k, trimLead);
      if IsValid(cVal) {
        kept := kept + [cVal];
      }
      k := k + 1;
    }
    assert slices[..k] == slices;
  }

  /** The `reduce` that concatenates the rendered slices, left to right. */
  function Program(slices: seq<Slice>): (code: string)
    ensures |code| >= |slices|
    ensures slices != [] ==> code[|code| - 1] == '\n'
    decreases |slices|
  {
    if slices == [] then ""
    else
      var n := |slices| - 1;
      Program(slices[..n]) + Render(slices[n])
  }

  /** One more slice appends its rendering to the program. */
  lemma ProgramSnoc(slices: seq<Slice>, s: Slice)
    ensures Program(slices + [s]) == Program(slices) + Render(s)
  {
    assert (slices + [s])[..|slices|] == slices;
  }

  /** The last slice's rendering ends the program. */
  lemma ProgramLast(slices: seq<Slice>)
    requires slices != []
    ensures Program(slices) == Program(slices[..|slices| - 1]) + Render(slices[|slices| - 1])
  {
  }

  /** The program of two runs of slices is the two programs one after the other. */
  lemma {:induction false} ProgramAppend(a: seq<Slice>, b: seq<Slice>)
    ensures Program(a + b) == Program(a) + Program(b)
    decreases |b|
  {
    if b == [] {
      assert a + b == a;
    } else {
      var front, last := b[..|b| - 1], b[|b| - 1];
      var ab := a + b;
      ProgramLast(b);
      ProgramLast(ab);
      DropLastOfAppend(a, b);
      ProgramAppend(a, front);
      AppendAssociates(Program(a), Program(front), Render(last));
    }
  }

  /** The number of line feeds in a string. */
  function LineFeeds(s: string): (n: nat)
    ensures n <= |s|
    ensures n == 0 <==> '\n' !in s
    decreases |s|
  {
    if s == [] then 0 else LineFeeds(s[..|s| - 1]) + (if s[|s| - 1] == '\n' then 1 else 0)
  }

  lemma {:induction false} LineFeedsAppend(a: string, b: string)
    ensures LineFeeds(a + b) == LineFeeds(a) + LineFeeds(b)
    decreases |b|
  {
    if b == [] {
      assert a + b == a;
    } else {
      var n := |b| - 1;
      assert (a + b)[..|a| + n] == a + b[..n];
      LineFeedsAppend(a, b[..n]);
    }
  }

  /** A program made of Text and Code slices without line feeds has one
      line per slice. */
  lemma {:induction false} ProgramLines(slices: seq<Slice>)
    requires forall k :: 0 <= k < |slices| ==> !slices[k].Output? && Flattened(slices[k])
    ensures LineFeeds(Program(slices)) == |slices|
    decreases |slices|
  {
    if slices != [] {
      var n := |slices| - 1;
      ProgramLines(slices[..n]);
      var code := Render(slices[n]);
      LineFeedsAppend(Program(slices[..n]), code);
      assert code == code[..|code| - 1] + [code[|code| - 1]];
      LineFeedsAppend(code[..|code| - 1], [code[|code| - 1]]);
    }
  }

  /** A template in which the detector records no marker (in particular
      one without markers) becomes a program that writes it out in one
      call, with its line breaks escaped; an empty template becomes an
      empty program. */
  lemma TemplateWithoutMarkers(sl: Slicer, m: Markers, template: string, trimLead: bool)
    requires Built(sl, m) && Quiet(sl, template, 0, |template|)
    ensures Runnable(sl) && Sliced(sl, template).Success?
    ensures Program(Kept(Sliced(sl, template).value, trimLead))
              == if template == [] then "" else "__out__('" + ReplaceNewlines(template, "\\n") + "')\n"
  {
    SlicedWhenQuiet(sl, m, template);
    OneTextProgram(template, trimLead);
  }

  /** The program of a template cut into one Text slice. */
  lemma OneTextProgram(template: string, trimLead: bool)
    ensures Program(Kept([MakeText(template)], trimLead))
              == if template == [] then "" else "__out__('" + ReplaceNewlines(template, "\\n") + "')\n"
  {
    var slices := [MakeText(template)];
    assert Kept(slices, trimLead) == (if IsValid(slices[0]) then [slices[0]] else []) by {
      assert slices[..0] == [];
    }
    if template != [] {
      assert ReplaceNewlines(template, "\\n") != [];
      assert Program([slices[0]]) == Program([]) + Render(slices[0]) by {
        assert [slices[0]][..0] == [];
      }
    }
  }

  // ---------------------------------------------------------------------
  // The generator object
  // ---------------------------------------------------------------------

  /** What a name is bound to while the program runs: a value the caller
      supplied, or the output sink `__out__`. */
  datatype Binding<V> = Data(value: V) | OutSink

  /** The bindings `run()` installs: the globals, then the per-run data
      over them, then `__out__` over both. */
  function Scope<V>(globals: map<string, V>, ldata: map<string, V>): (r: map<string, Binding<V>>)
    ensures forall k :: k in r <==> k in globals || k in ldata || k == "__out__"
    ensures r["__out__"] == OutSink
    ensures forall k :: k in ldata && k != "__out__" ==> r[k] == Data(ldata[k])
    ensures forall k :: k in globals && k !in ldata && k != "__out__" ==> r[k] == Data(globals[k])
  {
    var merged := globals + ldata;
    (map k | k in merged :: Data(merged[k]))["__out__" := OutSink]
  }

  class Stcg<V> {
    /** The generated program. */
    var script: string
    /** The symbols added with `global`. */
    var globals: map<string, V>

    constructor (script: string)
      ensures this.script == script && globals == map[]
    {
      this.script := script;
      globals := map[];
    }

    /** `global(name, data)`: adds the symbol, replacing one of the same name. */
    method Global(name: string, data: V)
      modifies this
      ensures globals == old(globals)[name := data]
      ensures script == old(script)
    {
      globals := globals[name := data];
    }

    /** `new Stcg(template, options)`: settles the options (writing the
        defaults into the caller's object), builds the slicer, slices the
        template and assembles the program; each `throw` is a `Failure`.
        `sl` is the slicer the constructor built, when it got that far. */
    static method Create(template: string, options: StcgOptions?) returns (r: Result<Stcg<V>>, ghost sl: Slicer)
      modifies options
      ensures options != null ==> options.Fields() == Defaulted(old(options.Fields()))
      ensures var given := if options == null then None else Some(old(options.Fields()));
        Resolve(given).Failure? ==> r == Failure(BadDebugLen)
      ensures var given := if options == null then None else Some(old(options.Fields()));
        Resolve(given).Success? ==>
          var s := Resolve(given).value;
          var ws := Words(s.markers);
          && (FirstRepeat(ws).Some? ==> r == Failure(MarkerClash(ws[FirstRepeat(ws).value])))
          && (FirstRepeat(ws).None? && FirstBlocking(ws).Some? ==>
                r == Failure(MarkerBlocks(TrieLabels(ws)[FirstBlocking(ws).value])))
          && (FirstRepeat(ws).None? && FirstBlocking(ws).None? ==>
                && Built(sl, s.markers) && Runnable(sl) && sl.debugLen == s.debugLen
                && (Sliced(sl, template).Failure? ==> r == Failure(Sliced(sl, template).error))
                && (Sliced(sl, template).Success? ==>
                      && r.Success? && fresh(r.value) && r.value.globals == map[]
                      && r.value.script == Program(Kept(Sliced(sl, template).value, s.trimAfterCode))))
    {
      ghost var given := if options == null then None else Some(options.Fields());
      var o: StcgOptions;
      if options == null {
        o := new StcgOptions(DefaultObject);
      } else {
        o := options;
      }
      o.ApplyDefaults();
      sl := Slicer(0, map[], map[], map[]);
      if o.debugLen.value < 1 {
        r := Failure(BadDebugLen);
        return;
      }
      var made := NewSlicer(o.debugLen.value, o.codeBegin.value, o.codeEnd.value, o.outputBegin.value, o.outputEnd.value);
      if made.Failure? {
        r := Failure(made.error);
        return;
      }
      var slicer := made.value;
      sl := slicer;
      BuiltIsRunnable(slicer, Markers(o.codeBegin.value, o.codeEnd.value, o.outputBegin.value, o.outputEnd.value));
      var slices := SliceTemplate(slicer, template);
      if slices.Failure? {
        r := Failure(slices.error);
        return;
      }
      var kept := Assemble(slices.value, o.trimAfterCode.value);
      var generator := new Stcg(Program(kept));
      r := Success(generator);
    }
  }
}
