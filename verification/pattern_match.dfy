/** `match` of src/operations/utility.ts: an ordered list of include and
    exclude glob patterns applied to a candidate list.

    The glob test (`minimatch.match`) and brace expansion (`braceExpand`) are
    parameters. The model first turns the patterns into a plan of `Step`s
    (one per surviving sub-pattern, in order) and then applies the steps to
    an accumulator set from left to right; since the glob is a pure function
    of its arguments this is the source's interleaved loop, reordered. */
module PatternMatch {
  import opened Results
  import opened JsString
  import opened PathUtil

  /** `MatchOptions`, every field present. */
  datatype MatchOptions = MatchOptions(
    debug: bool, nobrace: bool, noglobstar: bool, dot: bool, noext: bool,
    nocase: bool, nonull: bool, matchBase: bool, nocomment: bool,
    nonegate: bool, flipNegate: bool)

  /** `_getDefaultMatchOptions` on a POSIX platform, where `nocase` is false.
      Braces are not expanded, dot files match, and comments and negation
      are honoured without the parity flip. */
  function DefaultOptions(): (d: MatchOptions)
    ensures d.nobrace && d.dot && !d.nocase && !d.matchBase
    ensures !d.nocomment && !d.nonegate && !d.flipNegate
  {
    MatchOptions(debug := false, nobrace := true, noglobstar := false, dot := true,
                 noext := false, nocase := false, nonull := false, matchBase := false,
                 nocomment := false, nonegate := false, flipNegate := false)
  }

  /** The `patterns` argument: one string or a list of strings. */
  datatype Patterns = One(pattern: string) | Many(patterns: seq<string>)

  function PatternList(p: Patterns): (r: seq<string>)
    ensures p.One? ==> r == [p.pattern]
    ensures p.Many? ==> r == p.patterns
  {
    match p
    case One(q) => [q]
    case Many(qs) => qs
  }

  /** `minimatch.match(list, pattern, options)`: the matching candidates. */
  type Glob = (seq<string>, string, MatchOptions) -> seq<string>

  /** `minimatch.braceExpand(pattern)`. */
  type Expander = string -> seq<string>

  /** The clone of the caller's options after the three latches of one
      pattern: comment and negation handling marked done, the parity flip
      cleared, brace expansion marked done. Everything else is the caller's. */
  function Latched(o: MatchOptions): (l: MatchOptions)
    ensures l.nocomment && l.nonegate && !l.flipNegate && l.nobrace
    ensures l.debug == o.debug && l.noglobstar == o.noglobstar && l.dot == o.dot
            && l.noext == o.noext && l.nocase == o.nocase && l.nonull == o.nonull
            && l.matchBase == o.matchBase
  {
    o.(nocomment := true, nonegate := true, flipNegate := false, nobrace := true)
  }

  /** The number of leading `!` of `s`. */
  function LeadingBangs(s: string): (k: nat)
    ensures k <= |s|
    ensures forall i :: 0 <= i < k ==> s[i] == '!'
    ensures k < |s| ==> s[k] != '!'
  {
    if |s| > 0 && s[0] == '!' then 1 + LeadingBangs(s[1..]) else 0
  }

  function Bangs(k: nat): (r: string)
    ensures |r| == k && forall i :: 0 <= i < k ==> r[i] == '!'
  {
    seq(k, _ => '!')
  }

  /** The parity rule: no `!` always includes; otherwise an even count
      includes unless `flipNegate`, and an odd count includes only with it. */
  function IsInclude(negateCount: nat, flipNegate: bool): (r: bool)
    ensures negateCount == 0 ==> r
    ensures negateCount > 0 ==> (r <==> (negateCount % 2 == 0) != flipNegate)
  {
    negateCount == 0
    || (negateCount % 2 == 0 && !flipNegate)
    || (negateCount % 2 == 1 && flipNegate)
  }

  /** What one raw pattern asks for before brace expansion. */
  datatype Directive = Skip | Apply(isInclude: bool, body: string)

  /** Trim, skip blanks, skip comments, count and strip leading `!`. */
  function Classify(pattern: string, o: MatchOptions): (d: Directive)
    ensures d.Skip? <==> AllWhitespace(pattern) || (!o.nocomment && Trim(pattern)[0] == '#')
    ensures d.Apply? && o.nonegate ==> d.isInclude && d.body == Trim(pattern)
    ensures d.Apply? && !o.nonegate ==>
              exists k: nat :: Trim(pattern) == Bangs(k) + d.body && d.isInclude == IsInclude(k, o.flipNegate)
                               && (d.body == [] || d.body[0] != '!')
  {
    var t := Trim(pattern);
    if t == [] then Skip
    else
      StartsWithChar(t, '#');
      if !o.nocomment && StartsWith(t, "#") then Skip
      else
        var negateCount := if o.nonegate then 0 else LeadingBangs(t);
        BangsPrefix(t, negateCount);
        Apply(IsInclude(negateCount, o.flipNegate), t[negateCount..])
  }

  /** A string that starts with `k` bangs is those bangs followed by the rest. */
  lemma BangsPrefix(t: string, k: nat)
    requires k <= |t| && forall i :: 0 <= i < k ==> t[i] == '!'
    ensures t == Bangs(k) + t[k..]
  {
  }

  /** One application of the glob: a sub-pattern, its kind and its options. */
  datatype Step = Step(isInclude: bool, pattern: string, options: MatchOptions)

  /** Rooting of one trimmed sub-pattern: only with a non-empty root, a
      pattern that is not rooted, and either `matchBase` off or a `/` in the
      pattern. */
  function Root(t: string, patternRoot: string, matchBase: bool): (r: string)
    requires t != []
    ensures patternRoot == [] || t[0] == '/' || (matchBase && '/' !in t) ==> r == t
    ensures patternRoot != [] && t[0] != '/' && (!matchBase || '/' in t) ==>
              && |r| == |patternRoot| + |t| + (if patternRoot[|patternRoot| - 1] == '/' then 0 else 1)
              && r[..|patternRoot|] == patternRoot
              && r[|r| - |t|..] == t && r[|r| - |t| - 1] == '/'
  {
    if patternRoot != [] && !IsRooted(t).value && (!matchBase || IndexOf(t, '/') >= 0)
    then EnsureRooted(patternRoot, t).value
    else t
  }

  /** The inner loop over the expanded sub-patterns: trim, skip blanks, root. */
  function SubSteps(subs: seq<string>, isInclude: bool, patternRoot: string, lo: MatchOptions): (r: seq<Step>)
    ensures |r| <= |subs|
    ensures forall k :: 0 <= k < |r| ==> r[k].isInclude == isInclude && r[k].options == lo && r[k].pattern != []
    ensures (forall k :: 0 <= k < |subs| ==> AllWhitespace(subs[k])) ==> r == []
  {
    if subs == [] then []
    else
      var t := Trim(subs[0]);
      var here := if t == [] then [] else [Step(isInclude, Root(t, patternRoot, lo.matchBase), lo)];
      here + SubSteps(subs[1..], isInclude, patternRoot, lo)
  }

  /** The body of the outer loop for one pattern. */
  function PatternSteps(pattern: string, patternRoot: string, o: MatchOptions, expand: Expander): (r: seq<Step>)
    ensures Classify(pattern, o).Skip? ==> r == []
    ensures forall k :: 0 <= k < |r| ==>
              r[k].options == Latched(o) && r[k].isInclude == Classify(pattern, o).isInclude
    ensures o.nobrace ==> |r| <= 1
  {
    match Classify(pattern, o)
    case Skip => []
    case Apply(isInclude, body) =>
      var expanded := if o.nobrace then [body] else expand(body);
      SubSteps(expanded, isInclude, patternRoot, Latched(o))
  }

  /** The plan for a whole pattern list: each pattern's steps, in order. */
  function Steps(patterns: seq<string>, patternRoot: string, o: MatchOptions, expand: Expander): (r: seq<Step>)
    ensures forall k :: 0 <= k < |r| ==> r[k].options == Latched(o)
  {
    if patterns == [] then []
    else PatternSteps(patterns[0], patternRoot, o, expand) + Steps(patterns[1..], patternRoot, o, expand)
  }

  /** One step on the accumulator: an include adds what the glob matched, an
      exclude deletes it (deleting an absent path does nothing); every other
      path keeps its membership. */
  function ApplyStep(acc: set<string>, list: seq<string>, s: Step, glob: Glob): (r: set<string>)
    ensures forall x :: x in r <==> (if x in glob(list, s.pattern, s.options) then s.isInclude else x in acc)
  {
    var matched := set x | x in glob(list, s.pattern, s.options);
    if s.isInclude then acc + matched else acc - matched
  }

  /** The steps applied strictly left to right. A path only enters the
      accumulator through an include step that matches it, and only leaves
      it through an exclude step that matches it. */
  function ApplySteps(acc: set<string>, list: seq<string>, steps: seq<Step>, glob: Glob): (r: set<string>)
    ensures forall x :: x in r && x !in acc ==>
              exists k :: 0 <= k < |steps| && steps[k].isInclude && x in glob(list, steps[k].pattern, steps[k].options)
    ensures forall x :: x in acc && x !in r ==>
              exists k :: 0 <= k < |steps| && !steps[k].isInclude && x in glob(list, steps[k].pattern, steps[k].options)
    decreases |steps|
  {
    if steps == [] then acc
    else ApplySteps(ApplyStep(acc, list, steps[0], glob), list, steps[1..], glob)
  }

  /** `b` keeps the elements of `a` in order, possibly with gaps. */
  predicate IsSubsequence(a: seq<string>, b: seq<string>) {
    if a == [] then true
    else if b == [] then false
    else if a[0] == b[0] then IsSubsequence(a[1..], b[1..])
    else IsSubsequence(a, b[1..])
  }

  /** `list.filter(item => map.hasOwnProperty(item))`. */
  function Filter(list: seq<string>, keep: set<string>): (r: seq<string>)
    ensures IsSubsequence(r, list)
    ensures forall x :: x in r <==> x in list && x in keep
    ensures forall x :: multiset(r)[x] == (if x in keep then multiset(list)[x] else 0)
  {
    if list == [] then []
    else
      var rest := Filter(list[1..], keep);
      assert list == [list[0]] + list[1..];
      if list[0] in keep then [list[0]] + rest else rest
  }

  /** `match(list, patterns, patternRoot, options)`: the candidates whose
      membership survives the steps, in list order, with the list's own
      multiplicities and nothing added. */
  function Match(list: seq<string>, patterns: Patterns, patternRoot: string,
                 options: Option<MatchOptions>, expand: Expander, glob: Glob): (r: seq<string>)
    ensures IsSubsequence(r, list)
    ensures forall x :: x in r ==> x in list
    ensures forall x :: multiset(r)[x] == 0 || multiset(r)[x] == multiset(list)[x]
  {
    var o := if options.Some? then options.value else DefaultOptions();
    var steps := Steps(PatternList(patterns), patternRoot, o, expand);
    Filter(list, ApplySteps({}, list, steps, glob))
  }

  /** Each pattern's steps depend on that pattern and the caller's options
      alone: nothing one pattern latches leaks into the next. */
  lemma {:induction false} StepsAppend(a: seq<string>, b: seq<string>, patternRoot: string,
                                       o: MatchOptions, expand: Expander)
    ensures Steps(a + b, patternRoot, o, expand)
            == Steps(a, patternRoot, o, expand) + Steps(b, patternRoot, o, expand)
  {
    if a == [] {
      assert a + b == b;
    } else {
      var tail := a[1..];
      assert (a + b)[0] == a[0];
      assert (a + b)[1..] == tail + b;
      StepsCons(a + b, patternRoot, o, expand);
      StepsCons(a, patternRoot, o, expand);
      StepsAppend(tail, b, patternRoot, o, expand);
      AppendAssoc(PatternSteps(a[0], patternRoot, o, expand), Steps(tail, patternRoot, o, expand),
                  Steps(b, patternRoot, o, expand));
    }
  }

  /** The plan of a non-empty list: its first pattern's steps, then the rest's. */
  lemma StepsCons(patterns: seq<string>, patternRoot: string, o: MatchOptions, expand: Expander)
    requires patterns != []
    ensures Steps(patterns, patternRoot, o, expand)
            == PatternSteps(patterns[0], patternRoot, o, expand) + Steps(patterns[1..], patternRoot, o, expand)
  {
  }

  /** Applying two runs of steps is applying the first, then the second. */
  lemma {:induction false} ApplyStepsAppend(acc: set<string>, list: seq<string>, s1: seq<Step>,
                                            s2: seq<Step>, glob: Glob)
    ensures ApplySteps(acc, list, s1 + s2, glob)
            == ApplySteps(ApplySteps(acc, list, s1, glob), list, s2, glob)
    decreases |s1|
  {
    if s1 == [] {
      assert s1 + s2 == s2;
    } else {
      assert (s1 + s2)[1..] == s1[1..] + s2;
      ApplyStepsAppend(ApplyStep(acc, list, s1[0], glob), list, s1[1..], s2, glob);
    }
  }

  /** The position of the last step whose glob matches `x`, if any. */
  function LastMatch(x: string, list: seq<string>, steps: seq<Step>, glob: Glob): (r: Option<nat>)
    ensures r.Some? ==> r.value < |steps|
                        && x in glob(list, steps[r.value].pattern, steps[r.value].options)
                        && forall j :: r.value < j < |steps| ==>
                             x !in glob(list, steps[j].pattern, steps[j].options)
    ensures r.None? ==> forall j :: 0 <= j < |steps| ==>
                          x !in glob(list, steps[j].pattern, steps[j].options)
    decreases |steps|
  {
    if steps == [] then None
    else
      var n := |steps| - 1;
      if x in glob(list, steps[n].pattern, steps[n].options) then Some(n)
      else LastMatch(x, list, steps[..n], glob)
  }

  /** Left-to-right application means the last matching step decides: a
      path is in the accumulator iff the last step matching it is an include,
      or, when no step matches it, iff it was there to begin with. */
  lemma {:induction false} ApplyStepsLastMatch(acc: set<string>, list: seq<string>, steps: seq<Step>,
                                               glob: Glob, x: string)
    ensures x in ApplySteps(acc, list, steps, glob) <==>
              match LastMatch(x, list, steps, glob)
              case None => x in acc
              case Some(i) => steps[i].isInclude
    decreases |steps|
  {
    if steps != [] {
      var n := |steps| - 1;
      assert steps == steps[..n] + [steps[n]];
      ApplyStepsAppend(acc, list, steps[..n], [steps[n]], glob);
      var mid := ApplySteps(acc, list, steps[..n], glob);
      assert ApplySteps(mid, list, [steps[n]], glob) == ApplyStep(mid, list, steps[n], glob);
      ApplyStepsLastMatch(acc, list, steps[..n], glob, x);
    }
  }

  /** Membership in the result of `match`: a candidate is kept iff it is in
      the list and the last step whose glob matches it is an include. */
  lemma MatchMembership(list: seq<string>, patterns: Patterns, patternRoot: string,
                        o: MatchOptions, expand: Expander, glob: Glob, x: string)
    ensures var steps := Steps(PatternList(patterns), patternRoot, o, expand);
            x in Match(list, patterns, patternRoot, Some(o), expand, glob) <==>
              x in list
              && match LastMatch(x, list, steps, glob)
                 case None => false
                 case Some(i) => steps[i].isInclude
  {
    var steps := Steps(PatternList(patterns), patternRoot, o, expand);
    ApplyStepsLastMatch({}, list, steps, glob, x);
  }

  /** A blank pattern, or a comment while comments are honoured, can be
      inserted anywhere in the list without changing the result. */
  lemma SkippedPatternChangesNothing(list: seq<string>, a: seq<string>, p: string, b: seq<string>,
                                     patternRoot: string, o: MatchOptions, expand: Expander, glob: Glob)
    requires AllWhitespace(p) || (!o.nocomment && Trim(p)[0] == '#')
    ensures Match(list, Many(a + [p] + b), patternRoot, Some(o), expand, glob)
            == Match(list, Many(a + b), patternRoot, Some(o), expand, glob)
  {
    assert Classify(p, o).Skip?;
    StepsSingle(p, patternRoot, o, expand);
    var sa := Steps(a, patternRoot, o, expand);
    StepsAppend(a, [p], patternRoot, o, expand);
    assert sa + [] == sa;
    StepsAppend(a + [p], b, patternRoot, o, expand);
    StepsAppend(a, b, patternRoot, o, expand);
  }

  /** With `nobrace` set the expansion is exactly the stripped pattern: the
      brace expander is never consulted and at most one step results. */
  lemma NoBraceIgnoresExpander(pattern: string, patternRoot: string, o: MatchOptions,
                               e1: Expander, e2: Expander)
    requires o.nobrace
    ensures PatternSteps(pattern, patternRoot, o, e1) == PatternSteps(pattern, patternRoot, o, e2)
  {
  }

  /** Without `options`, `match` uses the defaults, which set `nobrace`: the
      brace expander is never consulted, so every pattern gives at most one
      step and the result does not depend on the expander. */
  lemma {:induction false} DefaultIgnoresExpander(patterns: seq<string>, patternRoot: string,
                                                  e1: Expander, e2: Expander)
    ensures Steps(patterns, patternRoot, DefaultOptions(), e1) == Steps(patterns, patternRoot, DefaultOptions(), e2)
    ensures |Steps(patterns, patternRoot, DefaultOptions(), e1)| <= |patterns|
  {
    if patterns != [] {
      var o := DefaultOptions();
      NoBraceIgnoresExpander(patterns[0], patternRoot, o, e1, e2);
      DefaultIgnoresExpander(patterns[1..], patternRoot, e1, e2);
      StepsCons(patterns, patternRoot, o, e1);
      StepsCons(patterns, patternRoot, o, e2);
    }
  }

  /** `match` without options gives the same result whatever the expander. */
  lemma MatchDefaultIgnoresExpander(list: seq<string>, patterns: Patterns, patternRoot: string,
                                    e1: Expander, e2: Expander, glob: Glob)
    ensures Match(list, patterns, patternRoot, None, e1, glob) == Match(list, patterns, patternRoot, None, e2, glob)
  {
    DefaultIgnoresExpander(PatternList(patterns), patternRoot, e1, e2);
  }

  /** A trimmed pattern that starts with neither `!` nor `#` is one include. */
  lemma ClassifyPlain(p: string, o: MatchOptions)
    requires p != [] && Trim(p) == p && p[0] != '!' && p[0] != '#'
    ensures Classify(p, o) == Apply(true, p)
  {
    assert LeadingBangs(p) == 0;
    assert !StartsWith(p, "#");
  }

  /** One `!` before such a pattern makes it an exclude, unless negation is
      off or the parity is flipped. */
  lemma ClassifyNegated(q: string, o: MatchOptions)
    requires !o.nonegate && !o.flipNegate
    requires q != [] && Trim(q) == q && q[0] != '!' && q[0] != '#'
    ensures Classify("!" + q, o) == Apply(false, q)
  {
    var p := "!" + q;
    assert p[0] == '!' && p[1..] == q;
    TrimUnchanged(p);
    StartsWithChar(p, '#');
    assert LeadingBangs(p) == 1 + LeadingBangs(q) == 1;
    assert p[1..] == q;
  }

  lemma StepsSingle(p: string, patternRoot: string, o: MatchOptions, expand: Expander)
    ensures Steps([p], patternRoot, o, expand) == PatternSteps(p, patternRoot, o, expand)
  {
    assert [p][1..] == [];
  }

  lemma StepsPair(p1: string, p2: string, patternRoot: string, o: MatchOptions, expand: Expander)
    ensures Steps([p1, p2], patternRoot, o, expand)
            == PatternSteps(p1, patternRoot, o, expand) + PatternSteps(p2, patternRoot, o, expand)
  {
    StepsAppend([p1], [p2], patternRoot, o, expand);
    assert [p1] + [p2] == [p1, p2];
    StepsSingle(p1, patternRoot, o, expand);
    StepsSingle(p2, patternRoot, o, expand);
  }

  /** With `nobrace`, a pattern whose stripped body is already trimmed makes
      exactly one step. */
  lemma PatternStepsOf(p: string, patternRoot: string, o: MatchOptions, expand: Expander,
                       isInclude: bool, body: string)
    requires o.nobrace && Classify(p, o) == Apply(isInclude, body)
    requires body != [] && Trim(body) == body
    ensures PatternSteps(p, patternRoot, o, expand)
            == [Step(isInclude, Root(body, patternRoot, o.matchBase), Latched(o))]
  {
    SubStepsSingle(body, isInclude, patternRoot, Latched(o));
  }

  lemma SubStepsSingle(p: string, isInclude: bool, patternRoot: string, lo: MatchOptions)
    requires p != [] && Trim(p) == p
    ensures SubSteps([p], isInclude, patternRoot, lo)
            == [Step(isInclude, Root(p, patternRoot, lo.matchBase), lo)]
  {
    assert [p][1..] == [];
  }

  /** One expanded sub-pattern: a blank one gives no step, any other gives
      one step for its trimmed, rooted text. */
  lemma SubStepsOne(s: string, isInclude: bool, patternRoot: string, lo: MatchOptions)
    ensures SubSteps([s], isInclude, patternRoot, lo)
            == if AllWhitespace(s) then [] else [Step(isInclude, Root(Trim(s), patternRoot, lo.matchBase), lo)]
  {
    assert [s][1..] == [];
  }

  /** The sub-patterns are processed one after another, in expansion order. */
  lemma {:induction false} SubStepsAppend(a: seq<string>, b: seq<string>, isInclude: bool,
                                          patternRoot: string, lo: MatchOptions)
    ensures SubSteps(a + b, isInclude, patternRoot, lo)
            == SubSteps(a, isInclude, patternRoot, lo) + SubSteps(b, isInclude, patternRoot, lo)
  {
    if a == [] {
      assert a + b == b;
    } else {
      assert (a + b)[0] == a[0];
      assert (a + b)[1..] == a[1..] + b;
      SubStepsAppend(a[1..], b, isInclude, patternRoot, lo);
      var t := Trim(a[0]);
      var here := if t == [] then [] else [Step(isInclude, Root(t, patternRoot, lo.matchBase), lo)];
      AppendAssoc(here, SubSteps(a[1..], isInclude, patternRoot, lo), SubSteps(b, isInclude, patternRoot, lo));
    }
  }

  /** A blank sub-pattern, wherever it appears in the expansion, adds no step. */
  lemma BlankSubPatternSkipped(a: seq<string>, s: string, b: seq<string>, isInclude: bool,
                               patternRoot: string, lo: MatchOptions)
    requires AllWhitespace(s)
    ensures SubSteps(a + [s] + b, isInclude, patternRoot, lo) == SubSteps(a + b, isInclude, patternRoot, lo)
  {
    SubStepsAppend(a + [s], b, isInclude, patternRoot, lo);
    SubStepsAppend(a, [s], isInclude, patternRoot, lo);
    SubStepsOne(s, isInclude, patternRoot, lo);
    SubStepsAppend(a, b, isInclude, patternRoot, lo);
    var sa := SubSteps(a, isInclude, patternRoot, lo);
    assert sa + [] == sa;
  }

  /** The plan for one plain pattern with `nobrace` is a single include step. */
  lemma PlainSteps(p: string, patternRoot: string, o: MatchOptions, expand: Expander)
    requires o.nobrace
    requires p != [] && Trim(p) == p && p[0] != '!' && p[0] != '#'
    ensures Steps([p], patternRoot, o, expand)
            == [Step(true, Root(p, patternRoot, o.matchBase), Latched(o))]
  {
    ClassifyPlain(p, o);
    PatternStepsOf(p, patternRoot, o, expand, true, p);
    StepsSingle(p, patternRoot, o, expand);
  }

  /** Rooting equivalence: matching a relative pattern under a rooted root is
      matching the joined absolute pattern with no root. */
  lemma RootingEquivalence(list: seq<string>, p: string, root: string, o: MatchOptions,
                           expand: Expander, glob: Glob)
    requires o.nobrace && !o.matchBase
    requires p != [] && Trim(p) == p
    requires p[0] != '!' && p[0] != '#' && p[0] != '/'
    requires root != [] && root[0] == '/' && root[|root| - 1] != '/'
    ensures Match(list, One(p), root, Some(o), expand, glob)
            == Match(list, One(root + "/" + p), "", Some(o), expand, glob)
  {
    var q := root + "/" + p;
    assert q[0] == '/' && q[|q| - 1] == p[|p| - 1];
    TrimUnchanged(q);
    assert EnsureRooted(root, p).value == q;
    assert Root(p, root, false) == q;
    PlainSteps(p, root, o, expand);
    PlainSteps(q, "", o, expand);
  }

  /** Two steps from an empty accumulator: the second decides what it
      matches, the first decides the rest. */
  lemma TwoStepMembership(list: seq<string>, s1: Step, s2: Step, glob: Glob, x: string)
    ensures x in ApplySteps({}, list, [s1, s2], glob) <==>
              if x in glob(list, s2.pattern, s2.options) then s2.isInclude
              else x in glob(list, s1.pattern, s1.options) && s1.isInclude
  {
    var steps := [s1, s2];
    var after1 := ApplyStep({}, list, s1, glob);
    assert steps[1..] == [s2];
    assert [s2][1..] == [];
    assert ApplySteps({}, list, steps, glob) == ApplySteps(after1, list, [s2], glob);
    assert ApplySteps(after1, list, [s2], glob) == ApplyStep(after1, list, s2, glob);
  }

  /** The candidates `match` keeps are those in the accumulator after the plan. */
  lemma MatchKeeps(list: seq<string>, patterns: Patterns, patternRoot: string,
                   o: MatchOptions, expand: Expander, glob: Glob, x: string)
    ensures x in Match(list, patterns, patternRoot, Some(o), expand, glob) <==>
              x in list && x in ApplySteps({}, list, Steps(PatternList(patterns), patternRoot, o, expand), glob)
  {
  }

  /** The plan for two patterns that are each plain or singly negated. */
  lemma PlanPair(q1: string, inc1: bool, p1: string, q2: string, p2: string, inc2: bool,
                 o: MatchOptions, expand: Expander)
    requires o.nobrace && !o.nonegate && !o.flipNegate
    requires q1 != [] && Trim(q1) == q1 && q1[0] != '!' && q1[0] != '#'
    requires q2 != [] && Trim(q2) == q2 && q2[0] != '!' && q2[0] != '#'
    requires p1 == (if inc1 then q1 else "!" + q1) && p2 == (if inc2 then q2 else "!" + q2)
    ensures Steps([p1, p2], "", o, expand)
            == [Step(inc1, q1, Latched(o)), Step(inc2, q2, Latched(o))]
  {
    PlanOne(q1, inc1, p1, o, expand);
    PlanOne(q2, inc2, p2, o, expand);
    StepsPair(p1, p2, "", o, expand);
  }

  lemma PlanOne(q: string, inc: bool, p: string, o: MatchOptions, expand: Expander)
    requires o.nobrace && !o.nonegate && !o.flipNegate
    requires q != [] && Trim(q) == q && q[0] != '!' && q[0] != '#'
    requires p == (if inc then q else "!" + q)
    ensures PatternSteps(p, "", o, expand) == [Step(inc, q, Latched(o))]
  {
    if inc { ClassifyPlain(q, o); } else { ClassifyNegated(q, o); }
    PatternStepsOf(p, "", o, expand, inc, q);
  }

  /** An include followed by a negated pattern: a candidate survives iff the
      first glob matches it and the second does not. With `*.txt` and
      `secret.txt` this is the `["*.txt", "!secret.txt"]` case: `secret.txt`
      is dropped, `a.txt` kept. */
  lemma IncludeThenExclude(list: seq<string>, q1: string, q2: string, o: MatchOptions,
                           expand: Expander, glob: Glob, x: string)
    requires o.nobrace && !o.nonegate && !o.flipNegate
    requires q1 != [] && Trim(q1) == q1 && q1[0] != '!' && q1[0] != '#'
    requires q2 != [] && Trim(q2) == q2 && q2[0] != '!' && q2[0] != '#'
    ensures x in Match(list, Many([q1, "!" + q2]), "", Some(o), expand, glob) <==>
              x in list && x in glob(list, q1, Latched(o)) && x !in glob(list, q2, Latched(o))
  {
    var lo := Latched(o);
    PlanPair(q1, true, q1, q2, "!" + q2, false, o, expand);
    MatchKeeps(list, Many([q1, "!" + q2]), "", o, expand, glob, x);
    TwoStepMembership(list, Step(true, q1, lo), Step(false, q2, lo), glob, x);
  }

  /** A negated pattern followed by the same pattern: the later include
      reinstates every candidate the glob matches. With `*.log` this is the
      `["!*.log", "*.log"]` case that keeps `x.log`. */
  lemma ExcludeThenInclude(list: seq<string>, q: string, o: MatchOptions,
                           expand: Expander, glob: Glob, x: string)
    requires o.nobrace && !o.nonegate && !o.flipNegate
    requires q != [] && Trim(q) == q && q[0] != '!' && q[0] != '#'
    ensures x in Match(list, Many(["!" + q, q]), "", Some(o), expand, glob) <==>
              x in list && x in glob(list, q, Latched(o))
  {
    var lo := Latched(o);
    PlanPair(q, false, "!" + q, q, q, true, o, expand);
    MatchKeeps(list, Many(["!" + q, q]), "", o, expand, glob, x);
    TwoStepMembership(list, Step(false, q, lo), Step(true, q, lo), glob, x);
  }
}
