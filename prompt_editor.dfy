/** The prompt section codec of the prompt editor: stored prompt text is split
    into editable free text and locked regions written as
    `<!-- STATIC:L -->body<!-- /STATIC:L -->`, and the sections are written
    back as text when the user saves. */
module PromptEditor {
  import opened Wrappers
  import opened Text
  import Lists

  /** One section of a prompt: free text the user may edit, or a locked
      region with its label and its trimmed body. */
  datatype Section = Editable(content: string) | Static(tag: string, content: string)

  const OpenHead := "<!-- STATIC:"
  const CloseHead := "<!-- /STATIC:"
  const MarkerTail := " -->"

  /** The begin marker of a region labelled `label`. */
  function Opener(tag: string): string { OpenHead + tag + MarkerTail }

  /** The end marker of a region labelled `label`. */
  function Closer(tag: string): string { CloseHead + tag + MarkerTail }

  /** A label is one or more `\w` characters. */
  predicate IsLabel(tag: string) {
    |tag| > 0 && forall i :: 0 <= i < |tag| ==> IsWordChar(tag[i])
  }

  // ---------------------------------------------------------------------------
  // The regular expression /<!-- STATIC:(\w+) -->([\s\S]*?)<!-- \/STATIC:\1 -->/g

  /** End of the run of `\w` characters that starts at `i`. */
  function WordRunEnd(s: string, i: nat): (j: nat)
    requires i <= |s|
    ensures i <= j <= |s|
    decreases |s| - i
  {
    if i < |s| && IsWordChar(s[i]) then WordRunEnd(s, i + 1) else i
  }

  /** The run is made of word characters and stops before any other. */
  lemma {:induction false} WordRunEndIsRun(s: string, i: nat)
    requires i <= |s|
    ensures forall k :: i <= k < WordRunEnd(s, i) ==> IsWordChar(s[k])
    ensures WordRunEnd(s, i) < |s| ==> !IsWordChar(s[WordRunEnd(s, i)])
    decreases |s| - i
  {
    if i < |s| && IsWordChar(s[i]) {
      WordRunEndIsRun(s, i + 1);
    }
  }

  /** The label of a begin marker that starts at `p`, if one does. The group
      `(\w+)` is followed by a space, which `\w` does not match, so the only
      label the regular expression can capture is the whole run of word
      characters. */
  function OpenerAt(s: string, p: nat): Option<string>
  {
    if StartsWithAt(s, p, OpenHead) then
      var e := WordRunEnd(s, p + |OpenHead|);
      if e > p + |OpenHead| && StartsWithAt(s, e, MarkerTail) then Some(s[p + |OpenHead|..e]) else None
    else None
  }

  /** The first position at or after `from` where the end marker of `label`
      starts: the lazy body `([\s\S]*?)` followed by the back-reference `\1`. */
  function FirstCloser(s: string, tag: string, from: nat): (r: Option<nat>)
    requires from <= |s|
    ensures r.Some? ==> from <= r.value && r.value + |Closer(tag)| <= |s|
    decreases |s| - from
  {
    if StartsWithAt(s, from, Closer(tag)) then Some(from)
    else if from == |s| then None
    else FirstCloser(s, tag, from + 1)
  }

  /** One match of the regular expression: where it starts, the captured
      label, the body `s[bodyStart..bodyEnd]`, and where it ends. */
  datatype Match = Match(start: nat, tag: string, bodyStart: nat, bodyEnd: nat, end: nat)

  /** `m` is a match of the regular expression in `s`: a begin marker, a body
      that holds no end marker of the same label, and that end marker. */
  ghost predicate IsMatch(s: string, m: Match) {
    && IsLabel(m.tag)
    && StartsWithAt(s, m.start, Opener(m.tag))
    && m.bodyStart == m.start + |Opener(m.tag)|
    && m.bodyStart <= m.bodyEnd
    && StartsWithAt(s, m.bodyEnd, Closer(m.tag))
    && m.end == m.bodyEnd + |Closer(m.tag)|
    && forall k {:trigger StartsWithAt(s, k, Closer(m.tag))} :: m.bodyStart <= k < m.bodyEnd ==> !StartsWithAt(s, k, Closer(m.tag))
  }

  /** The match that starts at `p`, if the regular expression matches there. */
  function MatchAt(s: string, p: nat): (r: Option<Match>)
    ensures r.Some? ==> r.value.start == p < r.value.bodyStart <= r.value.bodyEnd < r.value.end <= |s|
  {
    match OpenerAt(s, p)
    case None => None
    case Some(tag) =>
      var b := p + |Opener(tag)|;
      match FirstCloser(s, tag, b)
      case None => None
      case Some(q) => Some(Match(p, tag, b, q, q + |Closer(tag)|))
  }

  /** `staticRegex.exec(content)` with `lastIndex == from`: the leftmost
      match that starts at or after `from`. */
  function Exec(s: string, from: nat): (r: Option<Match>)
    requires from <= |s|
    ensures r.Some? ==> from <= r.value.start && MatchAt(s, r.value.start) == r
    decreases |s| - from
  {
    if MatchAt(s, from).Some? then MatchAt(s, from)
    else if from == |s| then None
    else Exec(s, from + 1)
  }

  /** The lazy body stops at the first end marker of the label. */
  lemma {:induction false} FirstCloserIsFirst(s: string, tag: string, from: nat)
    requires from <= |s|
    ensures var r := FirstCloser(s, tag, from);
      && (r.Some? ==> StartsWithAt(s, r.value, Closer(tag)))
      && (r.Some? ==> forall k {:trigger StartsWithAt(s, k, Closer(tag))} :: from <= k < r.value ==> !StartsWithAt(s, k, Closer(tag)))
      && (r.None? ==> forall k {:trigger StartsWithAt(s, k, Closer(tag))} :: from <= k ==> !StartsWithAt(s, k, Closer(tag)))
    decreases |s| - from
  {
    if !StartsWithAt(s, from, Closer(tag)) && from < |s| {
      FirstCloserIsFirst(s, tag, from + 1);
    }
  }

  /** Whatever `MatchAt` finds is a match of the regular expression. */
  lemma MatchAtIsMatch(s: string, p: nat)
    ensures MatchAt(s, p).Some? ==> IsMatch(s, MatchAt(s, p).value)
  {
    OpenerAtMeans(s, p);
    if OpenerAt(s, p).Some? {
      FirstCloserIsFirst(s, OpenerAt(s, p).value, p + |Opener(OpenerAt(s, p).value)|);
    }
  }

  /** `exec` finds the leftmost match: none starts between `from` and it. */
  lemma {:induction false} ExecIsLeftmost(s: string, from: nat)
    requires from <= |s| && Exec(s, from).Some?
    ensures forall p {:trigger MatchAt(s, p)} :: from <= p < Exec(s, from).value.start ==> MatchAt(s, p).None?
    decreases |s| - from
  {
    if MatchAt(s, from).None? {
      var m := Exec(s, from + 1);
      assert Exec(s, from) == m;
      ExecIsLeftmost(s, from + 1);
      forall p | from <= p < m.value.start ensures MatchAt(s, p).None? {
        if p != from {
          assert from + 1 <= p < m.value.start;
        }
      }
    }
  }

  /** When `exec` finds nothing, no match starts anywhere from `from` on. */
  lemma {:induction false} ExecNoneMeansNoMatch(s: string, from: nat)
    requires from <= |s| && Exec(s, from).None?
    ensures forall p {:trigger MatchAt(s, p)} :: from <= p <= |s| ==> MatchAt(s, p).None?
    decreases |s| - from
  {
    if from < |s| {
      ExecNoneMeansNoMatch(s, from + 1);
      forall p | from <= p <= |s| ensures MatchAt(s, p).None? {
        if p != from {
          assert from + 1 <= p <= |s|;
        }
      }
    }
  }

  lemma {:induction false} WordRunEndIs(s: string, i: nat, j: nat)
    requires i <= j < |s|
    requires forall k :: i <= k < j ==> IsWordChar(s[k])
    requires !IsWordChar(s[j])
    ensures WordRunEnd(s, i) == j
    decreases j - i
  {
    if i < j {
      WordRunEndIs(s, i + 1, j);
    }
  }

  /** A begin marker at `p` holds the label `OpenerAt` reports. */
  lemma OpenerAtMeans(s: string, p: nat)
    ensures OpenerAt(s, p).Some? ==> IsLabel(OpenerAt(s, p).value) && StartsWithAt(s, p, Opener(OpenerAt(s, p).value))
  {
    if OpenerAt(s, p).Some? {
      var l := OpenerAt(s, p).value;
      var a := p + |OpenHead|;
      var e := WordRunEnd(s, a);
      WordRunEndIsRun(s, a);
      assert l == s[a..e];
      assert StartsWithAt(s, a, l);
      StartsWithAtConcat(s, p, OpenHead, l);
      StartsWithAtConcat(s, p, OpenHead + l, MarkerTail);
    }
  }

  /** The begin marker syntax: a begin marker with label `l` starts at `p`
      exactly when `s` holds `<!-- STATIC:l -->` there with `l` made of word
      characters. */
  lemma OpenerAtIff(s: string, p: nat, l: string)
    ensures OpenerAt(s, p) == Some(l) <==> IsLabel(l) && StartsWithAt(s, p, Opener(l))
  {
    OpenerAtMeans(s, p);
    if IsLabel(l) && StartsWithAt(s, p, Opener(l)) {
      var a := p + |OpenHead|;
      var e := a + |l|;
      StartsWithAtConcat(s, p, OpenHead + l, MarkerTail);
      StartsWithAtConcat(s, p, OpenHead, l);
      assert s[e..e + |MarkerTail|] == MarkerTail;
      assert s[e] == MarkerTail[0] == ' ';
      assert s[a..e] == l;
      forall k | a <= k < e ensures IsWordChar(s[k]) { assert s[k] == l[k - a]; }
      WordRunEndIs(s, a, e);
    }
  }

  /** The lazy body ends at the end marker when none starts before it. */
  lemma {:induction false} FirstCloserAt(s: string, tag: string, from: nat, q: nat)
    requires from <= q && StartsWithAt(s, q, Closer(tag))
    requires forall k {:trigger StartsWithAt(s, k, Closer(tag))} :: from <= k < q ==> !StartsWithAt(s, k, Closer(tag))
    ensures FirstCloser(s, tag, from) == Some(q)
    decreases q - from
  {
    if from < q {
      assert !StartsWithAt(s, from, Closer(tag));
      FirstCloserAt(s, tag, from + 1, q);
    }
  }

  /** The regular expression's outcome at a position is determined: every
      match starting at `m.start` is the one `MatchAt` gives. */
  lemma MatchAtIff(s: string, m: Match)
    ensures MatchAt(s, m.start) == Some(m) <==> IsMatch(s, m)
  {
    MatchAtIsMatch(s, m.start);
    if IsMatch(s, m) {
      IsMatchIsFound(s, m);
    }
  }

  /** A match of the regular expression is the one `MatchAt` finds. */
  lemma IsMatchIsFound(s: string, m: Match)
    requires IsMatch(s, m)
    ensures MatchAt(s, m.start) == Some(m)
  {
    OpenerAtIff(s, m.start, m.tag);
    FirstCloserAt(s, m.tag, m.bodyStart, m.bodyEnd);
    MatchAtOf(s, m.start, m.tag, m.bodyEnd);
  }

  lemma MatchAtOf(s: string, p: nat, tag: string, q: nat)
    requires OpenerAt(s, p) == Some(tag)
    requires p + |Opener(tag)| <= |s| && FirstCloser(s, tag, p + |Opener(tag)|) == Some(q)
    ensures MatchAt(s, p) == Some(Match(p, tag, p + |Opener(tag)|, q, q + |Closer(tag)|))
  {
  }

  /** A begin marker whose label has no end marker after it starts no region. */
  lemma UnclosedOpenerStartsNoRegion(s: string, p: nat, l: string)
    requires IsLabel(l) && StartsWithAt(s, p, Opener(l))
    requires forall k {:trigger StartsWithAt(s, k, Closer(l))} :: p + |Opener(l)| <= k ==> !StartsWithAt(s, k, Closer(l))
    ensures MatchAt(s, p).None?
  {
    OpenerAtIff(s, p, l);
    FirstCloserIsFirst(s, l, p + |Opener(l)|);
  }

  // ---------------------------------------------------------------------------
  // parsePromptSections

  /** An editable span: kept verbatim unless `trim()` leaves nothing. */
  function Gap(t: string): (r: seq<Section>)
  {
    if IsBlank(t) then [] else [Editable(t)]
  }

  /** The locked section a match yields: its label and its trimmed body. */
  function StaticOf(s: string, m: Match): Section
    requires m.bodyStart <= m.bodyEnd <= |s|
  {
    Static(m.tag, Trim(s[m.bodyStart..m.bodyEnd]))
  }

  /** The sections the scan loop pushes from position `from` on. */
  function Scan(s: string, from: nat): seq<Section>
    requires from <= |s|
    decreases |s| - from
  {
    match Exec(s, from)
    case None => Gap(s[from..])
    case Some(m) => Gap(s[from..m.start]) + [StaticOf(s, m)] + Scan(s, m.end)
  }

  /** The sections of a prompt; a prompt without regions is one editable
      section holding all of it. */
  function Parse(s: string): (r: seq<Section>)
    ensures |r| > 0
  {
    if Scan(s, 0) == [] then [Editable(s)] else Scan(s, 0)
  }

  /** One turn of the scan loop: the text before the match, then the match. */
  lemma ScanStep(s: string, from: nat, m: Match)
    requires from <= |s| && Exec(s, from) == Some(m)
    ensures m.start <= m.end <= |s|
    ensures Scan(s, from) == Gap(s[from..m.start]) + [StaticOf(s, m)] + Scan(s, m.end)
  {
  }

  /** The scan loop's invariant carries over one turn. */
  lemma ScanAccumulates(s: string, from: nat, m: Match, before: seq<Section>, after: seq<Section>)
    requires from <= |s| && Exec(s, from) == Some(m)
    requires after == before + Gap(s[from..m.start]) + [StaticOf(s, m)]
    ensures m.end <= |s|
    ensures after + Scan(s, m.end) == before + Scan(s, from)
  {
    ScanStep(s, from, m);
  }

  /** A turn of the scan loop that finds a match right at `from`, ending at
      `e`. */
  lemma ScanStepTo(s: string, from: nat, x: Section, e: nat)
    requires from <= |s| && Exec(s, from).Some? && Exec(s, from).value.start == from
    requires StaticOf(s, Exec(s, from).value) == x && Exec(s, from).value.end == e
    ensures Scan(s, from) == [x] + Scan(s, e)
  {
    var m := Exec(s, from).value;
    ScanStep(s, from, m);
    assert s[from..m.start] == [];
    assert Gap(s[from..m.start]) == [];
  }

  /** After the last match only the rest of the text is left. */
  lemma ScanEnd(s: string, from: nat)
    requires from <= |s| && Exec(s, from).None?
    ensures Scan(s, from) == Gap(s[from..])
  {
  }

  /** Pushes `content[from..to]` as an editable section unless `trim()`
      leaves nothing of it. */
  method PushEditable(sections: seq<Section>, content: string, from: nat, to: nat) returns (r: seq<Section>)
    requires from <= to <= |content|
    ensures r == sections + Gap(content[from..to])
  {
    r := sections;
    if to > from {
      var editable := content[from..to];
      TrimSpec(editable);
      if Trim(editable) != "" {
        r := r + [Editable(editable)];
      }
    }
  }

  /** `parsePromptSections`: the scan loop over the matches of the regular
      expression. */
  method ParseSections(content: string) returns (sections: seq<Section>)
    ensures sections == Parse(content)
  {
    sections := [];
    var lastIndex: nat := 0;
    var found := Exec(content, 0);
    while found.Some?
      invariant lastIndex <= |content|
      invariant found == Exec(content, lastIndex)
      invariant sections + Scan(content, lastIndex) == Scan(content, 0)
      decreases |content| - lastIndex
    {
      var m := found.value;
      ghost var before := sections;
      sections := PushEditable(sections, content, lastIndex, m.start);
      sections := sections + [Static(m.tag, Trim(content[m.bodyStart..m.bodyEnd]))];
      ScanAccumulates(content, lastIndex, m, before, sections);
      lastIndex := m.end;
      found := Exec(content, lastIndex);
    }
    ScanEnd(content, lastIndex);
    assert content[lastIndex..|content|] == content[lastIndex..];
    sections := PushEditable(sections, content, lastIndex, |content|);
    assert sections == Scan(content, 0);
    if |sections| == 0 {
      sections := [Editable(content)];
    }
  }

  // ---------------------------------------------------------------------------
  // What parsing yields

  /** The successive matches of the global regular expression from `from` on. */
  function Matches(s: string, from: nat): seq<Match>
    requires from <= |s|
    decreases |s| - from
  {
    match Exec(s, from)
    case None => []
    case Some(m) => [m] + Matches(s, m.end)
  }

  lemma MatchesStep(s: string, from: nat, m: Match)
    requires from <= |s| && Exec(s, from) == Some(m)
    ensures m.end <= |s|
    ensures Matches(s, from) == [m] + Matches(s, m.end)
  {
  }

  /** Each of the matches is the match of the regular expression at its
      start, which lies at or after `from`. */
  lemma {:induction false} MatchesAreFound(s: string, from: nat)
    requires from <= |s|
    ensures forall i :: 0 <= i < |Matches(s, from)| ==>
      from <= Matches(s, from)[i].start && MatchAt(s, Matches(s, from)[i].start) == Some(Matches(s, from)[i])
    decreases |s| - from
  {
    match Exec(s, from)
    case None =>
    case Some(m) =>
      MatchesStep(s, from, m);
      MatchesAreFound(s, m.end);
      var ms := Matches(s, from);
      var tail := Matches(s, m.end);
      forall i | 0 <= i < |ms| ensures from <= ms[i].start && MatchAt(s, ms[i].start) == Some(ms[i]) {
        if i > 0 {
          Lists.ConsIndex(m, tail, i);
        }
      }
  }

  /** The matches are matches of the regular expression, as `IsMatch` puts
      it, at or after `from`. */
  lemma MatchesAreRegions(s: string, from: nat)
    requires from <= |s|
    ensures forall i :: 0 <= i < |Matches(s, from)| ==> from <= Matches(s, from)[i].start && IsMatch(s, Matches(s, from)[i])
  {
    MatchesAreFound(s, from);
    var ms := Matches(s, from);
    forall i | 0 <= i < |ms| ensures IsMatch(s, ms[i]) {
      MatchAtIsMatch(s, ms[i].start);
    }
  }

  /** The matches come in document order and do not overlap. */
  lemma {:induction false} MatchesOrdered(s: string, from: nat)
    requires from <= |s|
    ensures forall i :: 0 <= i < |Matches(s, from)| - 1 ==> Matches(s, from)[i].end <= Matches(s, from)[i + 1].start
    decreases |s| - from
  {
    match Exec(s, from)
    case None =>
    case Some(m) =>
      MatchesStep(s, from, m);
      MatchesOrdered(s, m.end);
      var ms := Matches(s, from);
      var tail := Matches(s, m.end);
      forall i | 0 <= i < |ms| - 1 ensures ms[i].end <= ms[i + 1].start {
        Lists.ConsIndex(m, tail, i + 1);
        if i == 0 {
          assert Exec(s, m.end).Some?;
          MatchesStep(s, m.end, Exec(s, m.end).value);
        } else {
          Lists.ConsIndex(m, tail, i);
        }
      }
  }

  /** Where the scan resumes before looking for the `i`-th match. */
  function ResumeAt(from: nat, ms: seq<Match>, i: nat): nat
    requires i <= |ms|
  {
    if i == 0 then from else ms[i - 1].end
  }

  /** The global regular expression skips no match: none starts between
      where the scan resumes and the next match, nor after the last one. */
  lemma {:induction false} MatchesSkipNothing(s: string, from: nat)
    requires from <= |s|
    ensures var ms := Matches(s, from);
      forall i, p :: 0 <= i < |ms| && ResumeAt(from, ms, i) <= p < ms[i].start ==> MatchAt(s, p).None?
    ensures var ms := Matches(s, from);
      forall p :: ResumeAt(from, ms, |ms|) <= p <= |s| ==> MatchAt(s, p).None?
    decreases |s| - from
  {
    var ms := Matches(s, from);
    match Exec(s, from)
    case None =>
      ExecNoneMeansNoMatch(s, from);
    case Some(m) =>
      MatchesStep(s, from, m);
      ExecIsLeftmost(s, from);
      MatchesSkipNothing(s, m.end);
      var tail := Matches(s, m.end);
      assert ResumeAt(from, ms, |ms|) == ResumeAt(m.end, tail, |tail|);
      forall i, p | 0 <= i < |ms| && ResumeAt(from, ms, i) <= p < ms[i].start ensures MatchAt(s, p).None? {
        if i > 0 {
          Lists.ConsIndex(m, tail, i);
          if i > 1 {
            Lists.ConsIndex(m, tail, i - 1);
          }
          assert ResumeAt(from, ms, i) == ResumeAt(m.end, tail, i - 1);
        }
      }
  }

  /** The locked sections of a list, in order. */
  function StaticsOf(sections: seq<Section>): seq<Section>
  {
    Lists.Filter(sections, (x: Section) => x.Static?)
  }

  lemma {:induction false} StaticsOfConcat(a: seq<Section>, b: seq<Section>)
    ensures StaticsOf(a + b) == StaticsOf(a) + StaticsOf(b)
    decreases |a|
  {
    if |a| > 0 {
      assert (a + b)[1..] == a[1..] + b;
      StaticsOfConcat(a[1..], b);
    } else {
      assert a + b == b;
    }
  }

  /** One turn of the scan yields one locked section. */
  lemma StaticsOfScanStep(s: string, from: nat, m: Match)
    requires from <= |s| && Exec(s, from) == Some(m)
    ensures m.end <= |s|
    ensures StaticsOf(Scan(s, from)) == [StaticOf(s, m)] + StaticsOf(Scan(s, m.end))
  {
    ScanStep(s, from, m);
    var g := Gap(s[from..m.start]);
    var x := StaticOf(s, m);
    var rest := Scan(s, m.end);
    StaticsOfConcat(g + [x], rest);
    StaticsOfConcat(g, [x]);
    assert StaticsOf(g) == [];
    assert StaticsOf([x]) == [x];
    assert StaticsOf(g + [x]) == [x];
  }

  lemma {:induction false} StaticsOfScan(s: string, from: nat)
    requires from <= |s|
    ensures |StaticsOf(Scan(s, from))| == |Matches(s, from)|
    ensures forall i :: 0 <= i < |Matches(s, from)| ==>
      && Matches(s, from)[i].bodyStart <= Matches(s, from)[i].bodyEnd <= |s|
      && StaticsOf(Scan(s, from))[i] == StaticOf(s, Matches(s, from)[i])
    decreases |s| - from
  {
    match Exec(s, from)
    case None =>
      ScanEnd(s, from);
      assert StaticsOf(Gap(s[from..])) == [];
    case Some(m) =>
      StaticsOfScanStep(s, from, m);
      MatchesStep(s, from, m);
      StaticsOfScan(s, m.end);
      var ss := StaticsOf(Scan(s, from));
      var ms := Matches(s, from);
      forall i | 0 <= i < |ms| ensures ms[i].bodyStart <= ms[i].bodyEnd <= |s| && ss[i] == StaticOf(s, ms[i]) {
        if i > 0 {
          Lists.ConsIndex(m, Matches(s, m.end), i);
          Lists.ConsIndex(StaticOf(s, m), StaticsOf(Scan(s, m.end)), i);
        }
      }
  }

  /** One locked section per region, in document order, each with the
      captured label and the trimmed body of its region. */
  lemma StaticSectionsAreRegions(s: string)
    ensures |StaticsOf(Parse(s))| == |Matches(s, 0)|
    ensures forall i :: 0 <= i < |Matches(s, 0)| ==>
      && Matches(s, 0)[i].bodyStart <= Matches(s, 0)[i].bodyEnd <= |s|
      && StaticsOf(Parse(s))[i] == StaticOf(s, Matches(s, 0)[i])
  {
    StaticsOfScan(s, 0);
    if Scan(s, 0) == [] {
      assert StaticsOf([Editable(s)]) == [];
      assert StaticsOf(Scan(s, 0)) == [];
    }
  }

  /** A prompt parses to the single editable section holding all of it
      exactly when it holds no region at all. */
  lemma WithoutRegionsOneEditable(s: string)
    ensures (forall p :: 0 <= p <= |s| ==> MatchAt(s, p).None?) <==> Parse(s) == [Editable(s)]
  {
    match Exec(s, 0)
    case None =>
      ExecNoneMeansNoMatch(s, 0);
      ScanEnd(s, 0);
      assert s[0..] == s;
    case Some(m) =>
      ScanStep(s, 0, m);
      assert MatchAt(s, m.start).Some?;
      var k := |Gap(s[0..m.start])|;
      assert Scan(s, 0)[k] == StaticOf(s, m);
      assert Parse(s) == Scan(s, 0);
  }

  /** No two editable sections follow each other. */
  ghost predicate NoAdjacentEditables(sections: seq<Section>) {
    forall i :: 0 <= i < |sections| - 1 ==> !(sections[i].Editable? && sections[i + 1].Editable?)
  }

  lemma {:induction false} ScanNoAdjacentEditables(s: string, from: nat)
    requires from <= |s|
    ensures NoAdjacentEditables(Scan(s, from))
    decreases |s| - from
  {
    match Exec(s, from)
    case None =>
    case Some(m) =>
      ScanStep(s, from, m);
      ScanNoAdjacentEditables(s, m.end);
      var head := Gap(s[from..m.start]) + [StaticOf(s, m)];
      var r := head + Scan(s, m.end);
      forall i | 0 <= i < |r| - 1 ensures !(r[i].Editable? && r[i + 1].Editable?) {
        if i + 1 >= |head| && i >= |head| {
          assert r[i] == Scan(s, m.end)[i - |head|];
          assert r[i + 1] == Scan(s, m.end)[i + 1 - |head|];
        } else if i + 1 == |head| - 1 || i == |head| - 1 {
        }
      }
  }

  /** Sections come out with free text and locked regions alternating: never
      two editable sections in a row. */
  lemma ParseNoAdjacentEditables(s: string)
    ensures NoAdjacentEditables(Parse(s))
  {
    ScanNoAdjacentEditables(s, 0);
  }

  /** `t` is a span of `s` in which no region starts. */
  ghost predicate IsGapOf(s: string, t: string) {
    exists a: nat, b: nat :: a <= b <= |s| && t == s[a..b] && forall p :: a <= p < b ==> MatchAt(s, p).None?
  }

  lemma GapWitness(s: string, a: nat, b: nat)
    requires a <= b <= |s| && forall p :: a <= p < b ==> MatchAt(s, p).None?
    ensures IsGapOf(s, s[a..b])
  {
  }

  /** Every editable section of the list is a gap of `s` that is not all
      whitespace. */
  ghost predicate EditablesAreGapsOf(s: string, sections: seq<Section>) {
    forall i :: 0 <= i < |sections| && sections[i].Editable? ==> IsGapOf(s, sections[i].content) && !IsBlank(sections[i].content)
  }

  lemma EditablesAreGapsOfConcat(s: string, a: seq<Section>, b: seq<Section>)
    requires EditablesAreGapsOf(s, a) && EditablesAreGapsOf(s, b)
    ensures EditablesAreGapsOf(s, a + b)
  {
    forall i | 0 <= i < |a + b| && (a + b)[i].Editable?
      ensures IsGapOf(s, (a + b)[i].content) && !IsBlank((a + b)[i].content)
    {
      if i < |a| {
        assert (a + b)[i] == a[i];
      } else {
        assert (a + b)[i] == b[i - |a|];
      }
    }
  }

  lemma GapIsGapOf(s: string, a: nat, b: nat)
    requires a <= b <= |s| && forall p :: a <= p < b ==> MatchAt(s, p).None?
    ensures EditablesAreGapsOf(s, Gap(s[a..b]))
  {
    GapWitness(s, a, b);
  }

  lemma {:induction false} ScanEditablesAreGaps(s: string, from: nat)
    requires from <= |s|
    ensures EditablesAreGapsOf(s, Scan(s, from))
    decreases |s| - from
  {
    match Exec(s, from)
    case None =>
      ScanEnd(s, from);
      ExecNoneMeansNoMatch(s, from);
      assert s[from..] == s[from..|s|];
      GapIsGapOf(s, from, |s|);
    case Some(m) =>
      ScanStep(s, from, m);
      ExecIsLeftmost(s, from);
      GapIsGapOf(s, from, m.start);
      ScanEditablesAreGaps(s, m.end);
      var g := Gap(s[from..m.start]);
      assert EditablesAreGapsOf(s, [StaticOf(s, m)]);
      EditablesAreGapsOfConcat(s, g, [StaticOf(s, m)]);
      EditablesAreGapsOfConcat(s, g + [StaticOf(s, m)], Scan(s, m.end));
  }

  /** Every editable section is a verbatim, untrimmed span of the prompt in
      which no region starts; it is never whitespace only, unless it is the
      whole prompt. Where the span lies is stated by `ParseIsLayout`. */
  lemma EditablesAreVerbatimGaps(s: string)
    ensures forall i :: 0 <= i < |Parse(s)| && Parse(s)[i].Editable? ==>
      IsGapOf(s, Parse(s)[i].content) && (!IsBlank(Parse(s)[i].content) || Parse(s) == [Editable(s)])
  {
    ScanEditablesAreGaps(s, 0);
    match Exec(s, 0)
    case None =>
      ExecNoneMeansNoMatch(s, 0);
      GapWitness(s, 0, |s|);
      assert s[0..|s|] == s;
    case Some(m) =>
      ScanStep(s, 0, m);
      assert Parse(s) == Scan(s, 0);
  }

  /** The matches `ms` lie in order from `resume` on, each inside the text. */
  predicate Placed(s: string, resume: nat, ms: seq<Match>)
    decreases |ms|
  {
    && resume <= |s|
    && (|ms| > 0 ==>
      && resume <= ms[0].start <= ms[0].bodyStart <= ms[0].bodyEnd <= ms[0].end <= |s|
      && Placed(s, ms[0].end, ms[1..]))
  }

  /** The sections that placed matches give: the non-blank text before each
      match, then the match's locked section, and at the end the non-blank
      text after the last match. */
  function Layout(s: string, resume: nat, ms: seq<Match>): seq<Section>
    requires Placed(s, resume, ms)
    decreases |ms|
  {
    if |ms| == 0 then Gap(s[resume..])
    else Gap(s[resume..ms[0].start]) + [StaticOf(s, ms[0])] + Layout(s, ms[0].end, ms[1..])
  }

  /** The scan from `from` yields the layout of the matches from `from`. */
  lemma {:induction false} ScanIsLayout(s: string, from: nat)
    requires from <= |s|
    ensures Placed(s, from, Matches(s, from))
    ensures Scan(s, from) == Layout(s, from, Matches(s, from))
    decreases |s| - from
  {
    match Exec(s, from)
    case None =>
    case Some(m) =>
      MatchesStep(s, from, m);
      ScanStep(s, from, m);
      ScanIsLayout(s, m.end);
      var ms := Matches(s, from);
      assert ms[0] == m && ms[1..] == Matches(s, m.end);
  }

  /** Parsing lays the prompt out around the successive matches: the editable
      text before the first match, the first match's locked section, the
      editable text between it and the second match, and so on, ending with
      the editable text after the last match; blank stretches give no
      section. Only a prompt for which this gives nothing becomes one
      editable section. */
  lemma ParseIsLayout(s: string)
    ensures Placed(s, 0, Matches(s, 0))
    ensures Layout(s, 0, Matches(s, 0)) != [] ==> Parse(s) == Layout(s, 0, Matches(s, 0))
    ensures Layout(s, 0, Matches(s, 0)) == [] ==> Parse(s) == [Editable(s)]
  {
    ScanIsLayout(s, 0);
  }

  // ---------------------------------------------------------------------------
  // rebuildPromptContent

  /** The text one section is written back as. */
  function Render(section: Section): string
  {
    match section
    case Editable(c) => c
    case Static(l, c) => Opener(l) + "\n" + c + "\n" + Closer(l)
  }

  /** `rebuildPromptContent`: the sections written back, joined with newlines. */
  function Rebuild(sections: seq<Section>): (r: string)
    ensures sections == [] ==> r == ""
    ensures |sections| == 1 ==> r == Render(sections[0])
  {
    Join(Lists.MapSeq(sections, Render), "\n")
  }

  /** Rebuilding two non-empty lists one after the other writes the first,
      a newline, then the second. */
  lemma {:induction false} RebuildAppend(a: seq<Section>, b: seq<Section>)
    requires |a| > 0 && |b| > 0
    ensures Rebuild(a + b) == Rebuild(a) + "\n" + Rebuild(b)
    decreases |a|
  {
    RebuildCons(a + b);
    assert (a + b)[0] == a[0];
    RebuildCons(a);
    if |a| > 1 {
      assert (a + b)[1..] == a[1..] + b;
      RebuildAppend(a[1..], b);
    } else {
      assert (a + b)[1..] == b;
    }
  }

  /** A prompt without regions survives parsing and rebuilding unchanged. */
  lemma RebuildWithoutRegions(s: string)
    requires forall p :: 0 <= p <= |s| ==> MatchAt(s, p).None?
    ensures Rebuild(Parse(s)) == s
  {
    WithoutRegionsOneEditable(s);
  }

  /** A locked section rebuilds to a region that parses back to it: its label
      is a label, its content is already trimmed, and it does not hold its
      own end marker. */
  ghost predicate RoundTrips(section: Section) {
    && section.Static?
    && IsLabel(section.tag)
    && IsTrimmed(section.content)
    && !Contains(section.content, Closer(section.tag))
  }

  lemma CloserHasNoNewline(l: string)
    requires IsLabel(l)
    ensures forall i :: 0 <= i < |Closer(l)| ==> Closer(l)[i] != '\n'
  {
    forall i | 0 <= i < |Closer(l)| ensures Closer(l)[i] != '\n' {
      if |CloseHead| <= i < |CloseHead| + |l| {
        assert Closer(l)[i] == l[i - |CloseHead|];
      }
    }
  }

  /** The regular expression matches a begin marker, a body and the end
      marker of the same label when no end marker starts inside the body. */
  lemma MatchAtWrapped(s: string, p: nat, l: string, body: string)
    requires IsLabel(l)
    requires StartsWithAt(s, p, Opener(l) + body + Closer(l))
    requires forall k :: 0 <= k < |body| ==> !StartsWithAt(body + Closer(l), k, Closer(l))
    ensures MatchAt(s, p) == Some(Match(p, l, p + |Opener(l)|, p + |Opener(l)| + |body|, p + |Opener(l)| + |body| + |Closer(l)|))
  {
    var b := p + |Opener(l)|;
    var t := body + Closer(l);
    var m := Match(p, l, p + |Opener(l)|, p + |Opener(l)| + |body|, p + |Opener(l)| + |body| + |Closer(l)|);
    assert Opener(l) + body + Closer(l) == Opener(l) + t;
    StartsWithAtConcat(s, p, Opener(l), t);
    StartsWithAtSplit(s, m.bodyStart, body, Closer(l), m.bodyEnd);
    forall k | b <= k < b + |body| ensures !StartsWithAt(s, k, Closer(l)) {
      StartsWithAtShift(s, b, t, k, Closer(l));
    }
    assert IsMatch(s, m);
    IsMatchIsFound(s, m);
    assert MatchAt(s, m.start) == Some(m);
  }

  /** The body a locked section is written with, between its two newlines,
      holds no end marker of its label. */
  lemma RenderedBodyHoldsNoCloser(l: string, c: string)
    requires IsLabel(l) && !Contains(c, Closer(l))
    ensures var body := "\n" + c + "\n";
      forall k :: 0 <= k < |body| ==> !StartsWithAt(body + Closer(l), k, Closer(l))
  {
    var body := "\n" + c + "\n";
    var t := body + Closer(l);
    var w := Closer(l);
    CloserHasNoNewline(l);
    forall k | 0 <= k < |body| ensures !StartsWithAt(t, k, w) {
      if k + |w| <= |t| {
        if k == 0 || k == |c| + 1 {
          assert t[k..k + |w|][0] == '\n' != w[0];
        } else if k - 1 + |w| <= |c| {
          assert t[k..k + |w|] == c[k - 1..k - 1 + |w|];
          assert !StartsWithAt(c, k - 1, w);
        } else {
          assert t[k..k + |w|][|c| + 1 - k] == '\n' != w[|c| + 1 - k];
        }
      }
    }
  }

  /** A region written out at `p` with a label and a body free of its own
      end marker is matched there. */
  lemma RenderedRegionMatches(s: string, p: nat, l: string, c: string)
    requires IsLabel(l) && !Contains(c, Closer(l))
    requires StartsWithAt(s, p, Opener(l) + ("\n" + c + "\n") + Closer(l))
    ensures MatchAt(s, p) == Some(Match(p, l, p + |Opener(l)|, p + |Opener(l)| + |c| + 2, p + |Opener(l)| + |c| + 2 + |Closer(l)|))
  {
    RenderedBodyHoldsNoCloser(l, c);
    MatchAtWrapped(s, p, l, "\n" + c + "\n");
  }

  /** The body of a region written out at `p` is the content between two
      newlines. */
  lemma RenderedBodyAt(s: string, p: nat, l: string, c: string)
    requires StartsWithAt(s, p, Opener(l) + ("\n" + c + "\n") + Closer(l))
    ensures p + |Opener(l)| + |c| + 2 <= |s|
    ensures s[p + |Opener(l)|..p + |Opener(l)| + |c| + 2] == "\n" + c + "\n"
  {
    var body := "\n" + c + "\n";
    StartsWithAtConcat(s, p, Opener(l) + body, Closer(l));
    StartsWithAtConcat(s, p, Opener(l), body);
    assert |body| == |c| + 2;
  }

  /** A trimmed text between two newlines trims back to itself. */
  lemma TrimBetweenNewlines(x: string, c: string)
    requires IsTrimmed(c) && x == "\n" + c + "\n"
    ensures Trim(x) == c
  {
    assert IsBlank("\n");
    TrimOfPadded("\n", c, "\n");
  }

  /** The body of a region written out at `p` trims back to the content. */
  lemma RenderedBodyTrims(s: string, p: nat, l: string, c: string)
    requires IsTrimmed(c)
    requires StartsWithAt(s, p, Opener(l) + ("\n" + c + "\n") + Closer(l))
    ensures p + |Opener(l)| + |c| + 2 <= |s|
    ensures Trim(s[p + |Opener(l)|..p + |Opener(l)| + |c| + 2]) == c
  {
    RenderedBodyAt(s, p, l, c);
    TrimBetweenNewlines(s[p + |Opener(l)|..p + |Opener(l)| + |c| + 2], c);
  }

  /** The locked section read back from a region written out at `p` is the
      section that was written. */
  lemma RenderedStaticOf(s: string, p: nat, l: string, c: string)
    requires IsTrimmed(c)
    requires StartsWithAt(s, p, Opener(l) + ("\n" + c + "\n") + Closer(l))
    ensures p + |Opener(l)| + |c| + 2 <= |s|
    ensures StaticOf(s, Match(p, l, p + |Opener(l)|, p + |Opener(l)| + |c| + 2, p + |Opener(l)| + |c| + 2 + |Closer(l)|)) == Static(l, c)
  {
    RenderedBodyTrims(s, p, l, c);
  }

  /** A list of sections is written as its first section, then a newline
      and the rest when there is a rest. */
  lemma RebuildCons(sections: seq<Section>)
    requires |sections| > 0
    ensures Rebuild(sections) == Render(sections[0]) + (if |sections| == 1 then "" else "\n" + Rebuild(sections[1..]))
  {
    assert Lists.MapSeq(sections, Render)[1..] == Lists.MapSeq(sections[1..], Render);
  }

  /** No region starts at a position that does not hold `<`. */
  lemma NoMatchWithoutMarker(s: string, q: nat)
    requires q < |s| && s[q] != '<'
    ensures MatchAt(s, q).None?
  {
    if q + |OpenHead| <= |s| {
      assert s[q..q + |OpenHead|][0] == s[q] != OpenHead[0];
    }
  }

  /** A locked section is written as its begin marker, its content between
      two newlines, and its end marker. */
  lemma RenderStatic(x: Section)
    requires x.Static?
    ensures Render(x) == Opener(x.tag) + ("\n" + x.content + "\n") + Closer(x.tag)
  {
  }

  /** `exec` from a position where a match starts finds that match. */
  lemma ExecAtMatch(s: string, from: nat)
    requires from <= |s| && MatchAt(s, from).Some?
    ensures Exec(s, from) == MatchAt(s, from)
  {
  }

  /** The first section of a rebuilt list of round-tripping sections is the
      first match, starting right where the text starts. */
  lemma RenderedHeadMatches(s: string, from: nat, sections: seq<Section>)
    requires from <= |s| && s[from..] == Rebuild(sections)
    requires |sections| > 0 && RoundTrips(sections[0])
    ensures Exec(s, from).Some? && Exec(s, from).value.start == from
    ensures StaticOf(s, Exec(s, from).value) == sections[0]
    ensures Exec(s, from).value.end == from + |Render(sections[0])|
  {
    var x := sections[0];
    var l, c := x.tag, x.content;
    RebuildCons(sections);
    StartsWithAtOfSuffix(s, from, Render(x), if |sections| == 1 then "" else "\n" + Rebuild(sections[1..]));
    RenderStatic(x);
    RenderedRegionMatches(s, from, l, c);
    RenderedStaticOf(s, from, l, c);
    ExecAtMatch(s, from);
    assert x == Static(l, c);
  }

  /** A newline before the next match adds no section. */
  lemma ScanSkipsNewline(s: string, q: nat)
    requires q < |s| && s[q] == '\n'
    requires Exec(s, q + 1).Some? && Exec(s, q + 1).value.start == q + 1
    ensures Scan(s, q) == Scan(s, q + 1)
  {
    NoMatchWithoutMarker(s, q);
    var m := Exec(s, q + 1).value;
    assert Exec(s, q) == Exec(s, q + 1);
    ScanStep(s, q, m);
    ScanStep(s, q + 1, m);
    GapOfNewline(s, q, m.start);
  }

  /** A lone newline, and nothing at all, make no editable section. */
  lemma GapOfNewline(s: string, q: nat, e: nat)
    requires e == q + 1 <= |s| && s[q] == '\n'
    ensures Gap(s[q..e]) == [] && Gap(s[e..e]) == []
  {
    assert s[q..e] == "\n";
  }

  /** A newline right before a rebuilt list of round-tripping sections adds
      no section. */
  lemma ScanSkipsNewlineBeforeRendered(s: string, q: nat, sections: seq<Section>)
    requires q < |s| && s[q] == '\n' && s[q + 1..] == Rebuild(sections)
    requires |sections| > 0 && RoundTrips(sections[0])
    ensures Scan(s, q) == Scan(s, q + 1)
  {
    RenderedHeadMatches(s, q + 1, sections);
    ScanSkipsNewline(s, q);
  }

  /** Nothing is left to scan at the end of the text. */
  lemma ScanAtEnd(s: string)
    ensures Scan(s, |s|) == []
  {
    assert MatchAt(s, |s|).None?;
    assert s[|s|..] == [];
    assert Gap([]) == [];
  }

  /** Where the rebuilt text of the first section ends: at the end of the
      text, or at the newline before the rest. */
  lemma RenderedRest(s: string, from: nat, sections: seq<Section>) returns (e: nat)
    requires from <= |s| && s[from..] == Rebuild(sections) && |sections| > 0
    ensures e == from + |Render(sections[0])| <= |s|
    ensures |sections| == 1 ==> e == |s|
    ensures |sections| > 1 ==> e < |s| && s[e] == '\n' && s[e + 1..] == Rebuild(sections[1..])
  {
    var h := Render(sections[0]);
    e := from + |h|;
    RebuildCons(sections);
    if |sections| > 1 {
      var rest := Rebuild(sections[1..]);
      Lists.SuffixAfter(s, from, h, "\n" + rest, e);
      Lists.SuffixAfter(s, e, "\n", rest, e + 1);
    } else {
      assert s[from..] == h + "";
      Lists.SuffixAfter(s, from, h, "", e);
    }
  }

  /** Every section of the list round-trips. */
  ghost predicate AllRoundTrip(sections: seq<Section>) {
    |sections| > 0 ==> RoundTrips(sections[0]) && AllRoundTrip(sections[1..])
  }

  lemma {:induction false} AllRoundTripOf(sections: seq<Section>)
    requires forall i :: 0 <= i < |sections| ==> RoundTrips(sections[i])
    ensures AllRoundTrip(sections)
    decreases |sections|
  {
    if |sections| > 0 {
      assert forall i :: 0 <= i < |sections| - 1 ==> sections[1..][i] == sections[i + 1];
      AllRoundTripOf(sections[1..]);
    }
  }

  /** The scan reads the first of the rebuilt sections back and goes on
      at `e`, right after its region. */
  lemma ScanRenderedHead(s: string, from: nat, sections: seq<Section>, e: nat)
    requires from <= |s| && s[from..] == Rebuild(sections)
    requires |sections| > 0 && RoundTrips(sections[0])
    requires e == from + |Render(sections[0])| <= |s|
    ensures Scan(s, from) == [sections[0]] + Scan(s, e)
  {
    RenderedHeadMatches(s, from, sections);
    ScanStepTo(s, from, sections[0], e);
  }

  lemma {:induction false} ScanRenderedStatics(s: string, from: nat, sections: seq<Section>)
    requires from <= |s| && s[from..] == Rebuild(sections)
    requires |sections| > 0 && AllRoundTrip(sections)
    ensures Scan(s, from) == sections
    decreases |sections|
  {
    var e := RenderedRest(s, from, sections);
    ScanRenderedHead(s, from, sections, e);
    if |sections| == 1 {
      ScanAtEnd(s);
      assert e == |s|;
      assert Scan(s, e) == [];
      assert sections == [sections[0]] + [];
    } else {
      var rest := sections[1..];
      ScanSkipsNewlineBeforeRendered(s, e, rest);
      ScanRenderedStatics(s, e + 1, rest);
      assert Scan(s, e) == rest;
      assert sections == [sections[0]] + rest;
    }
  }

  /** Locked sections that are already trimmed and do not hold their own end
      marker are written back as regions that parse to the same labels and
      contents, in the same order. */
  lemma RebuildStaticsRoundTrip(sections: seq<Section>)
    requires |sections| > 0 && forall i :: 0 <= i < |sections| ==> RoundTrips(sections[i])
    ensures Parse(Rebuild(sections)) == sections
  {
    var s := Rebuild(sections);
    assert s[0..] == s;
    AllRoundTripOf(sections);
    ScanRenderedStatics(s, 0, sections);
  }

  /** The case of a lone locked section. */
  lemma LoneStaticRoundTrip(l: string, c: string)
    requires IsLabel(l) && IsTrimmed(c) && !Contains(c, Closer(l))
    ensures Rebuild([Static(l, c)]) == Opener(l) + "\n" + c + "\n" + Closer(l)
    ensures Parse(Rebuild([Static(l, c)])) == [Static(l, c)]
  {
    RebuildStaticsRoundTrip([Static(l, c)]);
  }

  // ---------------------------------------------------------------------------
  // handleSectionChange, getLabelForStatic, toggleExpand, fetchPrompts

  /** `handleSectionChange(key, index, newContent)`: replaces the content of
      one section of one prompt's list. */
  function ChangeSection(edited: map<string, seq<Section>>, key: string, index: nat, newContent: string)
    : (r: map<string, seq<Section>>)
    requires key in edited && index < |edited[key]|
    ensures r.Keys == edited.Keys
    ensures |r[key]| == |edited[key]|
    ensures r[key][index].content == newContent
    ensures r[key][index].Static? == edited[key][index].Static?
    ensures r[key][index].Static? ==> r[key][index].tag == edited[key][index].tag
    ensures forall j :: 0 <= j < |r[key]| && j != index ==> r[key][j] == edited[key][j]
    ensures forall k :: k in edited && k != key ==> r[k] == edited[k]
  {
    edited[key := edited[key][index := edited[key][index].(content := newContent)]]
  }

  /** Writing an editable section's content back leaves the prompt's locked
      sections as they were. */
  lemma EditingEditableKeepsStatics(edited: map<string, seq<Section>>, key: string, index: nat, newContent: string)
    requires key in edited && index < |edited[key]| && edited[key][index].Editable?
    ensures StaticsOf(ChangeSection(edited, key, index, newContent)[key]) == StaticsOf(edited[key])
  {
    var a := edited[key];
    var b := ChangeSection(edited, key, index, newContent)[key];
    assert a == a[..index] + [a[index]] + a[index + 1..];
    assert b == a[..index] + [b[index]] + a[index + 1..];
    StaticsOfConcat(a[..index] + [a[index]], a[index + 1..]);
    StaticsOfConcat(a[..index], [a[index]]);
    StaticsOfConcat(a[..index] + [b[index]], a[index + 1..]);
    StaticsOfConcat(a[..index], [b[index]]);
    assert StaticsOf([a[index]]) == [] == StaticsOf([b[index]]);
  }

  /** Changing a section twice keeps the last content only. */
  lemma ChangeSectionLastWins(edited: map<string, seq<Section>>, key: string, index: nat, c1: string, c2: string)
    requires key in edited && index < |edited[key]|
    ensures ChangeSection(ChangeSection(edited, key, index, c1), key, index, c2) == ChangeSection(edited, key, index, c2)
  {
    var once := ChangeSection(edited, key, index, c1);
    var a := ChangeSection(once, key, index, c2);
    var b := ChangeSection(edited, key, index, c2);
    assert a[key] == b[key];
    assert forall k :: k in a ==> a[k] == b[k];
  }

  const ReadOnlySuffix := " (Read-only)"

  /** `getLabelForStatic`: the heading shown above a locked section. */
  function StaticTitle(tag: string): (r: string)
    ensures |r| >= |ReadOnlySuffix| && r[|r| - |ReadOnlySuffix|..] == ReadOnlySuffix
    ensures tag == "OUTPUT_FORMAT" ==> r == "Output Format" + ReadOnlySuffix
    ensures tag == "VARIABLES" ==> r == "Variable Placeholders" + ReadOnlySuffix
    ensures tag != "OUTPUT_FORMAT" && tag != "VARIABLES" ==> |r| == |tag| + |ReadOnlySuffix| && r[..|tag|] == tag
  {
    if tag == "OUTPUT_FORMAT" then "Output Format (Read-only)"
    else if tag == "VARIABLES" then "Variable Placeholders (Read-only)"
    else tag + ReadOnlySuffix
  }

  /** `toggleExpand(key)`: the prompt that is expanded afterwards. */
  function ToggleExpand(expanded: Option<string>, key: string): (r: Option<string>)
    ensures r.None? <==> expanded == Some(key)
    ensures r.Some? ==> r.value == key
  {
    if expanded == Some(key) then None else Some(key)
  }

  /** Toggling the same prompt twice comes back to where it started, unless
      another prompt was expanded (that one is collapsed by the first toggle). */
  lemma ToggleTwice(expanded: Option<string>, key: string)
    ensures ToggleExpand(ToggleExpand(expanded, key), key) == (if expanded == Some(key) then expanded else None)
  {
  }

  /** A prompt as the back end serves it. */
  datatype PromptDocument = PromptDocument(key: string, name: string, content: string, isDefault: bool)

  /** The sections table `fetchPrompts` builds: each prompt's key mapped to
      its parsed content, the prompts entered in order. */
  function SectionsTable(prompts: seq<PromptDocument>): map<string, seq<Section>>
  {
    Lists.Table(prompts, (p: PromptDocument) => p.key, (p: PromptDocument) => Parse(p.content))
  }

  /** The table has one entry per prompt key, and a key's entry is the parsed
      content of the last prompt with that key. */
  lemma SectionsTableLastWins(prompts: seq<PromptDocument>)
    ensures SectionsTable(prompts).Keys == set i | 0 <= i < |prompts| :: prompts[i].key
    ensures forall i :: 0 <= i < |prompts| && (forall j :: i < j < |prompts| ==> prompts[j].key != prompts[i].key) ==>
      SectionsTable(prompts)[prompts[i].key] == Parse(prompts[i].content)
  {
    Lists.TableKeys(prompts, (p: PromptDocument) => p.key, (p: PromptDocument) => Parse(p.content));
    Lists.TableLastWins(prompts, (p: PromptDocument) => p.key, (p: PromptDocument) => Parse(p.content));
  }

  /** `fetchPrompts`: builds the sections table prompt by prompt. */
  method SectionsByKey(prompts: seq<PromptDocument>) returns (sections: map<string, seq<Section>>)
    ensures sections == SectionsTable(prompts)
  {
    sections := map[];
    var n := 0;
    while n < |prompts|
      invariant n <= |prompts|
      invariant sections == SectionsTable(prompts[..n])
    {
      var parsed := ParseSections(prompts[n].content);
      assert prompts[..n + 1][..n] == prompts[..n];
      sections := sections[prompts[n].key := parsed];
      n := n + 1;
    }
    assert prompts[..n] == prompts;
  }
}
