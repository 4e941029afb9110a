/** The fragment of Python's `re` that the scraper's patterns use: literals,
    alternations of literals, greedy runs of one character class, and an
    optional dot-and-digits tail. A pattern is a sequence of pieces matched
    left to right; each piece takes as much as it can. In every pattern of
    the scraper the piece after a run cannot begin with a character of the
    run's class, so giving characters back never lets a failed attempt
    succeed: the greedy walk below finds a match at a start position exactly
    when the backtracking engine does, with the same groups. */
module Regex {
  import opened Options
  import opened Patterns

  datatype Piece =
    | Lit(text: string)                 // the literal itself
    | Alt(options: seq<string>)         // (?:a|b|...) over literals, first alternative wins
    | Run(cls: Class, atLeastOne: bool) // [cls]+ when atLeastOne, [cls]* otherwise
    | Opt(lead: char, cls: Class)       // (?:<lead>[cls]+)?

  /** The end of the first alternative that occurs at `j`. */
  function FirstLit(options: seq<string>, s: string, j: nat): (r: Option<nat>)
    ensures r.None? <==> forall m :: 0 <= m < |options| ==> !LitAt(s, j, options[m])
    ensures r.Some? ==> exists m :: 0 <= m < |options| && LitAt(s, j, options[m]) && r.value == j + |options[m]|
  {
    if options == [] then None
    else if LitAt(s, j, options[0]) then Some(j + |options[0]|)
    else
      var r := FirstLit(options[1..], s, j);
      assert forall m :: 1 <= m < |options| ==> options[m] == options[1..][m - 1];
      r
  }

  /** Where piece `p`, tried at `j`, stops, or None when it fails. */
  function Step(p: Piece, s: string, j: nat): (r: Option<nat>)
    requires j <= |s|
    ensures r.Some? ==> j <= r.value <= |s|
    ensures p.Lit? ==> (r.Some? <==> LitAt(s, j, p.text)) && (r.Some? ==> r.value == j + |p.text|)
    ensures p.Run? && r.Some? ==> (forall k :: j <= k < r.value ==> In(p.cls, s[k]))
                                  && (r.value == |s| || !In(p.cls, s[r.value]))
                                  && (p.atLeastOne ==> j < r.value)
    ensures p.Run? && !p.atLeastOne ==> r.Some?
    ensures p.Run? && p.atLeastOne ==> (r.Some? <==> j < |s| && In(p.cls, s[j]))
    ensures p.Opt? ==> r.Some?
    ensures p.Opt? && r.Some? && r.value != j ==> j + 1 < r.value && s[j] == p.lead
                                                  && forall k :: j + 1 <= k < r.value ==> In(p.cls, s[k])
  {
    match p
    case Lit(t) => if LitAt(s, j, t) then Some(j + |t|) else None
    case Alt(ts) => FirstLit(ts, s, j)
    case Run(c, plus) =>
      var e := RunEnd(s, j, c);
      if plus && e == j then None else Some(e)
    case Opt(lead, c) =>
      if j + 1 < |s| && s[j] == lead && In(c, s[j + 1]) then Some(RunEnd(s, j + 1, c)) else Some(j)
  }

  /** The positions a match attempt of `ps` at `i` passes through: where it
      starts and where each piece stops. None when some piece fails. */
  function Trace(ps: seq<Piece>, s: string, i: nat): (t: Option<seq<nat>>)
    requires i <= |s|
    ensures t.Some? ==> |t.value| == |ps| + 1 && t.value[0] == i
    ensures t.Some? ==> forall k :: 0 <= k <= |ps| ==> i <= t.value[k] <= |s|
    ensures t.Some? ==> forall a, b :: 0 <= a <= b <= |ps| ==> t.value[a] <= t.value[b]
    decreases |ps|
  {
    if ps == [] then Some([i])
    else
      match Step(ps[0], s, i)
      case None => None
      case Some(j) =>
        match Trace(ps[1..], s, j)
        case None => None
        case Some(t) => Some([i] + t)
  }

  /** An attempt of `ps` at `i` succeeds. */
  predicate MatchesAt(ps: seq<Piece>, s: string, i: int) {
    0 <= i <= |s| && Trace(ps, s, i).Some?
  }

  /** The positions a successful attempt passes through. */
  function Positions(ps: seq<Piece>, s: string, i: int): (t: seq<nat>)
    requires MatchesAt(ps, s, i)
    ensures |t| == |ps| + 1 && t[0] == i
    ensures forall k :: 0 <= k <= |ps| ==> i <= t[k] <= |s|
    ensures forall a, b :: 0 <= a <= b <= |ps| ==> t[a] <= t[b]
  {
    Trace(ps, s, i).value
  }

  /** The text a successful attempt spans with the pieces `from..to`. */
  function Group(ps: seq<Piece>, s: string, i: int, from: nat, to: nat): string
    requires MatchesAt(ps, s, i) && from <= to <= |ps|
  {
    s[Positions(ps, s, i)[from]..Positions(ps, s, i)[to]]
  }

  /** Every piece of a successful attempt stops exactly where the next one
      starts: consecutive positions are one piece's step. */
  lemma {:induction false} PositionsStep(ps: seq<Piece>, s: string, i: nat, k: nat)
    requires MatchesAt(ps, s, i) && k < |ps|
    ensures Step(ps[k], s, Positions(ps, s, i)[k]) == Some(Positions(ps, s, i)[k + 1])
    decreases |ps|
  {
    var j := Step(ps[0], s, i).value;
    var t := Trace(ps[1..], s, j).value;
    assert Positions(ps, s, i) == [i] + t;
    if k > 0 {
      assert MatchesAt(ps[1..], s, j);
      PositionsStep(ps[1..], s, j, k - 1);
      assert ps[1..][k - 1] == ps[k];
    }
  }

  /** A sequence of positions whose every pair of neighbours is one step is
      a successful attempt: the converse of `PositionsStep`. */
  lemma {:induction false} StepsMatch(ps: seq<Piece>, s: string, t: seq<nat>)
    requires |t| == |ps| + 1 && t[0] <= |s|
    requires forall k :: 0 <= k < |ps| ==> t[k] <= |s| && Step(ps[k], s, t[k]) == Some(t[k + 1])
    ensures MatchesAt(ps, s, t[0]) && Positions(ps, s, t[0]) == t
    decreases |ps|
  {
    if ps != [] {
      forall k | 0 <= k < |ps[1..]|
        ensures t[1..][k] <= |s| && Step(ps[1..][k], s, t[1..][k]) == Some(t[1..][k + 1])
      {
        assert ps[1..][k] == ps[k + 1];
      }
      StepsMatch(ps[1..], s, t[1..]);
      assert Step(ps[0], s, t[0]) == Some(t[1]);
      assert [t[0]] + t[1..] == t;
    } else {
      assert t == [t[0]];
    }
  }

  /** `Chain(ps, s, t, k)`: from piece `k` on, every piece steps from its
      position in `t` to the next one. */
  predicate Chain(ps: seq<Piece>, s: string, t: seq<nat>, k: nat)
    decreases |ps| - k
  {
    k >= |ps| || (k + 1 < |t| && t[k] <= |s| && Step(ps[k], s, t[k]) == Some(t[k + 1]) && Chain(ps, s, t, k + 1))
  }

  /** A chain of steps from piece `k` is a step at every later piece. */
  lemma {:induction false} ChainSteps(ps: seq<Piece>, s: string, t: seq<nat>, k: nat)
    requires |t| == |ps| + 1 && Chain(ps, s, t, k)
    ensures forall m :: k <= m < |ps| ==> t[m] <= |s| && Step(ps[m], s, t[m]) == Some(t[m + 1])
    decreases |ps| - k
  {
    if k < |ps| {
      ChainSteps(ps, s, t, k + 1);
    }
  }

  /** A chain of steps through all pieces is a successful attempt. */
  lemma ChainMatch(ps: seq<Piece>, s: string, t: seq<nat>)
    requires |t| == |ps| + 1 && t[0] <= |s| && Chain(ps, s, t, 0)
    ensures MatchesAt(ps, s, t[0]) && Positions(ps, s, t[0]) == t
  {
    ChainSteps(ps, s, t, 0);
    StepsMatch(ps, s, t);
  }

  /** A literal that occurs at `j` is one step. */
  lemma LitStep(s: string, j: nat, lit: string)
    requires LitAt(s, j, lit)
    ensures Step(Lit(lit), s, j) == Some(j + |lit|)
  {
  }

  /** A literal that occurs at `j` starts with its first character there. */
  lemma LitHead(s: string, j: nat, lit: string)
    requires LitAt(s, j, lit) && |lit| > 0
    ensures s[j] == lit[0]
  {
    assert s[j..j + |lit|][0] == s[j];
  }

  /** A maximal run from `j` to `e` is one step. */
  lemma RunStep(s: string, j: nat, e: nat, c: Class, atLeastOne: bool)
    requires j <= e <= |s| && (atLeastOne ==> j < e)
    requires forall k :: j <= k < e ==> In(c, s[k])
    requires e == |s| || !In(c, s[e])
    ensures Step(Run(c, atLeastOne), s, j) == Some(e)
  {
    RunEndAt(s, j, e, c);
  }

  /** A run of one character, followed by one outside the class or by the
      end of the text, is one step. */
  lemma RunOneStep(s: string, j: nat, c: Class)
    requires j < |s| && In(c, s[j]) && (j + 1 == |s| || !In(c, s[j + 1]))
    ensures Step(Run(c, true), s, j) == Some(j + 1)
  {
    RunEndAt(s, j, j + 1, c);
  }

  /** The text a run piece of a successful attempt spans is the maximal run
      of its class there. */
  lemma RunGroup(ps: seq<Piece>, s: string, i: nat, k: nat)
    requires MatchesAt(ps, s, i) && k < |ps| && ps[k].Run?
    ensures var g := Group(ps, s, i, k, k + 1);
            && (forall m :: 0 <= m < |g| ==> In(ps[k].cls, g[m]))
            && (ps[k].atLeastOne ==> |g| > 0)
            && g == s[Positions(ps, s, i)[k]..RunEnd(s, Positions(ps, s, i)[k], ps[k].cls)]
  {
    var t := Positions(ps, s, i);
    PositionsStep(ps, s, i, k);
    var g := Group(ps, s, i, k, k + 1);
    assert forall m :: 0 <= m < |g| ==> g[m] == s[t[k] + m];
  }

  /** When every alternative begins with `c`, an alternation piece succeeds
      only on a `c`. */
  lemma AltStart(ps: seq<Piece>, s: string, i: nat, k: nat, c: char)
    requires MatchesAt(ps, s, i) && k < |ps| && ps[k].Alt?
    requires forall m :: 0 <= m < |ps[k].options| ==> |ps[k].options[m]| > 0 && ps[k].options[m][0] == c
    ensures Positions(ps, s, i)[k] < |s| && s[Positions(ps, s, i)[k]] == c
  {
    var j := Positions(ps, s, i)[k];
    PositionsStep(ps, s, i, k);
    var m :| 0 <= m < |ps[k].options| && LitAt(s, j, ps[k].options[m]);
    assert s[j..j + |ps[k].options[m]|][0] == s[j];
  }

  /** The text of a literal piece of a successful attempt is the literal. */
  lemma LitGroup(ps: seq<Piece>, s: string, i: nat, k: nat)
    requires MatchesAt(ps, s, i) && k < |ps| && ps[k].Lit?
    ensures Group(ps, s, i, k, k + 1) == ps[k].text
  {
    PositionsStep(ps, s, i, k);
  }

  /** The text of an optional piece of a successful attempt is empty, or its
      lead character followed by at least one character of its class. */
  lemma OptGroup(ps: seq<Piece>, s: string, i: nat, k: nat)
    requires MatchesAt(ps, s, i) && k < |ps| && ps[k].Opt?
    ensures var g := Group(ps, s, i, k, k + 1);
            g == [] || (|g| >= 2 && g[0] == ps[k].lead && forall m :: 1 <= m < |g| ==> In(ps[k].cls, g[m]))
  {
    var t := Positions(ps, s, i);
    PositionsStep(ps, s, i, k);
    var g := Group(ps, s, i, k, k + 1);
    assert forall m :: 0 <= m < |g| ==> g[m] == s[t[k] + m];
  }

  /** A group is the text of the subject between its two positions. */
  lemma GroupSpan(ps: seq<Piece>, s: string, i: nat, a: nat, b: nat)
    requires MatchesAt(ps, s, i) && a <= b <= |ps|
    ensures var t := Positions(ps, s, i); var g := Group(ps, s, i, a, b);
            t[a] + |g| == t[b] && s[t[a]..t[a] + |g|] == g
  {
  }

  /** Once the positions of an attempt are known, so is each of its groups. */
  lemma GroupFromPositions(ps: seq<Piece>, s: string, i: nat, t: seq<nat>, a: nat, b: nat)
    requires MatchesAt(ps, s, i) && Positions(ps, s, i) == t && a <= b <= |ps|
    ensures t[a] <= t[b] <= |s| && Group(ps, s, i, a, b) == s[t[a]..t[b]]
  {
  }

  /** Adjacent groups of one attempt concatenate to the group spanning both. */
  lemma GroupSplit(ps: seq<Piece>, s: string, i: nat, a: nat, b: nat, c: nat)
    requires MatchesAt(ps, s, i) && a <= b <= c <= |ps|
    ensures Group(ps, s, i, a, c) == Group(ps, s, i, a, b) + Group(ps, s, i, b, c)
  {
    var t := Positions(ps, s, i);
    assert s[t[a]..t[c]] == s[t[a]..t[b]] + s[t[b]..t[c]];
  }

  /** `FoundAt(ps, s, i)`: `i` is the start of the match `re.search` reports,
      the leftmost start at which an attempt succeeds. */
  predicate FoundAt(ps: seq<Piece>, s: string, i: int) {
    && MatchesAt(ps, s, i)
    && forall j :: 0 <= j < i ==> !MatchesAt(ps, s, j)
  }

  /** The leftmost start in `i..|s|` at which an attempt succeeds. */
  function Search(ps: seq<Piece>, s: string, i: nat): (r: Option<nat>)
    requires i <= |s|
    ensures r.Some? ==> i <= r.value <= |s| && MatchesAt(ps, s, r.value)
    ensures r.Some? ==> forall j :: i <= j < r.value ==> !MatchesAt(ps, s, j)
    ensures r.None? ==> forall j :: i <= j <= |s| ==> !MatchesAt(ps, s, j)
    decreases |s| - i
  {
    if MatchesAt(ps, s, i) then Some(i)
    else if i == |s| then None
    else Search(ps, s, i + 1)
  }

  /** `re.search(ps, s)`: where the reported match starts, or None. */
  function Find(ps: seq<Piece>, s: string): (r: Option<nat>)
    ensures r.None? <==> forall i :: 0 <= i <= |s| ==> !MatchesAt(ps, s, i)
    ensures r.Some? ==> FoundAt(ps, s, r.value)
  {
    Search(ps, s, 0)
  }

  /** A pattern that opens with a non-empty run has no match before `i`
      when no character before `i` is of the run's class. */
  lemma NoRunBefore(ps: seq<Piece>, s: string, i: nat)
    requires |ps| > 0 && ps[0].Run? && ps[0].atLeastOne && i <= |s|
    requires forall k :: 0 <= k < i ==> !In(ps[0].cls, s[k])
    ensures forall j :: 0 <= j < i ==> !MatchesAt(ps, s, j)
  {
    forall j | 0 <= j < i
      ensures !MatchesAt(ps, s, j)
    {
      if MatchesAt(ps, s, j) {
        PositionsStep(ps, s, j, 0);
        assert false;
      }
    }
  }

  /** The leftmost match is unique. */
  lemma FoundAtUnique(ps: seq<Piece>, s: string, i: int, j: int)
    requires FoundAt(ps, s, i) && FoundAt(ps, s, j)
    ensures i == j
  {
  }

  /** `re.search(ps, s).group(n)` for the group that spans the pieces
      `from..to`, or None when nothing matches. */
  function GroupOf(ps: seq<Piece>, s: string, from: nat, to: nat): (r: Option<string>)
    requires from <= to <= |ps|
    ensures r.None? <==> forall i :: 0 <= i <= |s| ==> !MatchesAt(ps, s, i)
    ensures r.Some? ==> exists i :: FoundAt(ps, s, i) && r.value == Group(ps, s, i, from, to)
  {
    match Find(ps, s)
    case None => None
    case Some(i) => Some(Group(ps, s, i, from, to))
  }

  /** `re.search(ps, s).group(n)` for a group that spans the run piece `k`
      alone: the maximal run of the piece's class where the piece starts in
      the reported match. */
  function RunGroupOf(ps: seq<Piece>, s: string, k: nat): (r: Option<string>)
    requires k < |ps| && ps[k].Run?
    ensures r == GroupOf(ps, s, k, k + 1)
    ensures r.Some? ==> (ps[k].atLeastOne ==> |r.value| > 0) && forall m :: 0 <= m < |r.value| ==> In(ps[k].cls, r.value[m])
    ensures r.Some? ==> var i := Find(ps, s).value; var j := Positions(ps, s, i)[k];
                        r.value == s[j..RunEnd(s, j, ps[k].cls)]
  {
    var r := GroupOf(ps, s, k, k + 1);
    if r.Some? then
      RunGroup(ps, s, Find(ps, s).value, k);
      r
    else r
  }

  /** Once an attempt at `i` succeeds and none before it does, the reported
      group is the one of the attempt at `i`. */
  lemma GroupAt(ps: seq<Piece>, s: string, from: nat, to: nat, i: nat)
    requires from <= to <= |ps|
    requires FoundAt(ps, s, i)
    ensures GroupOf(ps, s, from, to) == Some(Group(ps, s, i, from, to))
  {
    FoundAtUnique(ps, s, i, Find(ps, s).value);
  }
}
