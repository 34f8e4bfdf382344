/** The initial configuration of the frame buffer console: which mode each connector shows, and which
    display controller drives it. */
module FbdevConfig {
  import opened Options

  datatype Mode = Mode(hdisplay: nat, vdisplay: nat)

  /** A connector's modes in order, whether it is an LCD, and the controllers its encoder allows. */
  datatype Connector = Connector(modes: seq<Mode>, lcd: bool, encoder: Option<set<nat>>)

  const BOUND := 100000000

  // ---------------------------------------------------------------- the most similar mode

  /** The aspect ratio in fixed point. */
  function Factor(m: Mode): nat
    requires m.vdisplay > 0
  {
    m.hdisplay * 1024 / m.vdisplay
  }

  function Distance(a: Mode, b: Mode): nat
    requires a.vdisplay > 0 && b.vdisplay > 0
  {
    if Factor(a) > Factor(b) then Factor(a) - Factor(b) else Factor(b) - Factor(a)
  }

  /** The factor is the aspect ratio in 1024ths, rounded down. */
  lemma FactorIsAspect(m: Mode)
    requires m.vdisplay > 0
    ensures Factor(m) * m.vdisplay <= 1024 * m.hdisplay < (Factor(m) + 1) * m.vdisplay
  {
    var n, v := m.hdisplay * 1024, m.vdisplay;
    assert n == v * (n / v) + n % v;
  }

  /** How far two aspect ratios are apart, in 1024ths of a quotient with the denominator `a.v * b.v`. */
  function Apart(a: Mode, b: Mode): nat {
    var d := 1024 * (a.hdisplay * b.vdisplay - b.hdisplay * a.vdisplay);
    if d < 0 then -d else d
  }

  /** The distance is the difference of the aspect ratios in 1024ths, to less than one. */
  lemma DistanceIsAspect(a: Mode, b: Mode)
    requires a.vdisplay > 0 && b.vdisplay > 0
    ensures var vv := a.vdisplay * b.vdisplay;
            (Distance(a, b) - 1) * vv < Apart(a, b) < (Distance(a, b) + 1) * vv
  {
    FactorIsAspect(a);
    FactorIsAspect(b);
    Fractions(Factor(a), 1024 * a.hdisplay, a.vdisplay, Factor(b), 1024 * b.hdisplay, b.vdisplay);
    assert Distance(a, b) == Gap(Factor(a), Factor(b));
    assert Apart(a, b) == Gap((1024 * a.hdisplay) * b.vdisplay, (1024 * b.hdisplay) * a.vdisplay) by {
      var x, y := a.hdisplay * b.vdisplay, b.hdisplay * a.vdisplay;
      assert (1024 * a.hdisplay) * b.vdisplay == 1024 * x && (1024 * b.hdisplay) * a.vdisplay == 1024 * y;
    }
  }

  lemma Fractions(f: nat, n: nat, v: nat, g: nat, m: nat, w: nat)
    requires f * v <= n < (f + 1) * v && g * w <= m < (g + 1) * w && v > 0 && w > 0
    ensures (Gap(f, g) - 1) * (v * w) < Gap(n * w, m * v) < (Gap(f, g) + 1) * (v * w)
  {
    Between(f, n, v, w);
    Between(g, m, w, v);
    assert w * v == v * w;
    OverCommon(f, g, n * w, m * v, v * w);
  }

  function Gap(x: int, y: int): nat {
    if x > y then x - y else y - x
  }

  /** A quotient between two numbers, brought to a common denominator. */
  lemma Between(f: nat, n: nat, v: nat, w: nat)
    requires f * v <= n < (f + 1) * v && w > 0
    ensures f * (v * w) <= n * w < (f + 1) * (v * w)
  {
    var low: nat, high: nat := n - f * v, (f + 1) * v - n;
    assert low * w >= 0 && high * w > 0;
    assert n * w == (f * v) * w + low * w && ((f + 1) * v) * w == n * w + high * w;
    assert (f * v) * w == f * (v * w) && ((f + 1) * v) * w == (f + 1) * (v * w);
  }

  lemma OverCommon(f: nat, g: nat, x: int, y: int, vv: nat)
    requires f * vv <= x < (f + 1) * vv && g * vv <= y < (g + 1) * vv
    ensures (Gap(f, g) - 1) * vv < Gap(x, y) < (Gap(f, g) + 1) * vv
  {
    assert (f + 1) * vv == f * vv + vv && (g + 1) * vv == g * vv + vv;
    assert (f - g) * vv == f * vv - g * vv && (g - f) * vv == g * vv - f * vv;
    assert (Gap(f, g) - 1) * vv == Gap(f, g) * vv - vv && (Gap(f, g) + 1) * vv == Gap(f, g) * vv + vv;
    assert Gap(f, g) * vv == Gap(f * vv, g * vv) by {
      if f < g { assert (f - g) * vv <= 0; }
    }
  }

  /** Modes of the same aspect ratio have the same factor. */
  lemma SameAspectNoDistance(a: Mode, b: Mode)
    requires a.vdisplay > 0 && b.vdisplay > 0 && a.hdisplay * b.vdisplay == b.hdisplay * a.vdisplay
    ensures Distance(a, b) == 0
  {
    DistanceIsAspect(a, b);
    NegativeFactor(Distance(a, b) - 1, a.vdisplay * b.vdisplay);
  }

  lemma NegativeFactor(k: int, v: nat)
    requires k * v < 0
    ensures k < 0
  {
  }

  /** At least as large as the reference, and within the initial bound. */
  predicate Candidate(refMode: Mode, m: Mode)
    requires refMode.vdisplay > 0
  {
    m.hdisplay >= refMode.hdisplay && m.vdisplay >= refMode.vdisplay && Distance(m, refMode) < BOUND
  }

  /** The first candidate of least distance, or the head of the list when there is no candidate. */
  ghost predicate MostSimilar(refMode: Mode, modes: seq<Mode>, best: nat)
    requires refMode.vdisplay > 0 && modes != []
  {
    best < |modes| &&
    if exists k :: 0 <= k < |modes| && Candidate(refMode, modes[k]) then
      && Candidate(refMode, modes[best])
      && forall k :: 0 <= k < |modes| && Candidate(refMode, modes[k]) ==>
           if k < best then Distance(modes[k], refMode) > Distance(modes[best], refMode)
           else Distance(modes[k], refMode) >= Distance(modes[best], refMode)
    else best == 0
  }

  lemma MostSimilarUnique(refMode: Mode, modes: seq<Mode>, a: nat, b: nat)
    requires refMode.vdisplay > 0 && modes != []
    requires MostSimilar(refMode, modes, a) && MostSimilar(refMode, modes, b)
    ensures a == b
  {
  }

  /** The bound takes in every mode whose aspect ratio is within 99999999/1024 of the reference's. */
  lemma NearIsCandidate(refMode: Mode, m: Mode)
    requires refMode.vdisplay > 0 && m.hdisplay >= refMode.hdisplay && m.vdisplay >= refMode.vdisplay
    requires Apart(m, refMode) <= 99999999 * (m.vdisplay * refMode.vdisplay)
    ensures Candidate(refMode, m)
  {
    DistanceIsAspect(m, refMode);
    var vv, d := m.vdisplay * refMode.vdisplay, Distance(m, refMode);
    assert (d - 1 - 99999999) * vv == (d - 1) * vv - 99999999 * vv;
    NegativeFactor(d - 1 - 99999999, vv);
  }

  /** No mode at least as large and within bounds is nearer to the reference's aspect ratio by 2/1024 or
      more than the chosen one. */
  lemma MostSimilarIsNearest(refMode: Mode, modes: seq<Mode>, best: nat, k: nat)
    requires refMode.vdisplay > 0 && modes != [] && MostSimilar(refMode, modes, best)
    requires k < |modes| && modes[k].hdisplay >= refMode.hdisplay && modes[k].vdisplay >= refMode.vdisplay
    requires Apart(modes[k], refMode) <= 99999999 * (modes[k].vdisplay * refMode.vdisplay)
    ensures modes[best].hdisplay >= refMode.hdisplay && modes[best].vdisplay >= refMode.vdisplay
    ensures Apart(modes[best], refMode) * modes[k].vdisplay
            < (Apart(modes[k], refMode) + 2 * modes[k].vdisplay * refMode.vdisplay) * modes[best].vdisplay
  {
    var b, c, r := modes[best], modes[k], refMode;
    NearIsCandidate(r, c);
    assert Distance(b, r) <= Distance(c, r);
    DistanceIsAspect(b, r);
    DistanceIsAspect(c, r);
    NearerOver(Apart(b, r), Apart(c, r), Distance(b, r), Distance(c, r), b.vdisplay, c.vdisplay, r.vdisplay);
  }

  lemma NearerOver(x: nat, y: nat, p: nat, q: nat, b: nat, c: nat, r: nat)
    requires p <= q && b > 0 && c > 0 && r > 0 && x < (p + 1) * (b * r) && (q - 1) * (c * r) < y
    ensures x * c < (y + 2 * c * r) * b
  {
    calc {
      x * c;
    <  { Larger(x, (p + 1) * (b * r), c); }
      (p + 1) * (b * r) * c;
    <= { AtLeast(p + 1, q + 1, b * r * c); assert (p + 1) * (b * r) * c == (p + 1) * (b * r * c) && (q + 1) * (b * r) * c == (q + 1) * (b * r * c); }
      (q + 1) * (b * r) * c;
    == { assert (q + 1) * (b * r) * c == ((q - 1) * (c * r) + 2 * c * r) * b; }
      ((q - 1) * (c * r) + 2 * c * r) * b;
    <  { Larger((q - 1) * (c * r) + 2 * c * r, y + 2 * c * r, b); }
      (y + 2 * c * r) * b;
    }
  }

  lemma Larger(a: int, b: int, k: nat)
    requires a < b && k > 0
    ensures a * k < b * k
  {
    assert b * k == a * k + (b - a) * k && (b - a) * k > 0;
  }

  lemma AtLeast(a: int, b: int, k: nat)
    requires a <= b
    ensures a * k <= b * k
  {
    assert b * k == a * k + (b - a) * k && (b - a) * k >= 0;
  }

  /** If some mode at least as large has exactly the reference's aspect ratio, the chosen one differs from
      it by less than 1/1024. */
  lemma SameAspectWins(refMode: Mode, modes: seq<Mode>, best: nat, k: nat)
    requires refMode.vdisplay > 0 && modes != [] && MostSimilar(refMode, modes, best) && k < |modes|
    requires modes[k].hdisplay >= refMode.hdisplay && modes[k].vdisplay >= refMode.vdisplay
    requires modes[k].hdisplay * refMode.vdisplay == refMode.hdisplay * modes[k].vdisplay
    ensures modes[best].hdisplay >= refMode.hdisplay && modes[best].vdisplay >= refMode.vdisplay
    ensures Apart(modes[best], refMode) < modes[best].vdisplay * refMode.vdisplay
  {
    SameAspectNoDistance(modes[k], refMode);
    assert Candidate(refMode, modes[k]);
    DistanceIsAspect(modes[best], refMode);
  }

  /** The head of a list is the most similar to itself. */
  lemma HeadIsMostSimilar(modes: seq<Mode>)
    requires modes != [] && modes[0].vdisplay > 0
    ensures MostSimilar(modes[0], modes, 0)
  {
    assert Candidate(modes[0], modes[0]);
  }

  /** The distances of the candidates; other modes count as out of bounds. */
  ghost function Scores(refMode: Mode, modes: seq<Mode>): (s: seq<nat>)
    requires refMode.vdisplay > 0
    ensures |s| == |modes|
  {
    if modes == [] then []
    else
      var n := |modes| - 1;
      Scores(refMode, modes[..n]) + [if Candidate(refMode, modes[n]) then Distance(modes[n], refMode) else BOUND]
  }

  lemma {:induction false} ScoreAt(refMode: Mode, modes: seq<Mode>, k: nat)
    requires refMode.vdisplay > 0 && k < |modes|
    ensures Scores(refMode, modes)[k] == if Candidate(refMode, modes[k]) then Distance(modes[k], refMode) else BOUND
  {
    if k < |modes| - 1 { ScoreAt(refMode, modes[..|modes| - 1], k); }
  }

  /** `fix` has the first least score among the first `i` modes, or is the head if none is in bounds. */
  ghost predicate Leading(s: seq<nat>, i: nat, fix: nat, little: nat)
    requires i <= |s|
  {
    && little <= BOUND && (forall k :: 0 <= k < i ==> little <= s[k])
    && if little == BOUND then fix == 0
       else fix < i && s[fix] == little && forall k :: 0 <= k < fix ==> little < s[k]
  }

  lemma LeaderIsMostSimilar(refMode: Mode, modes: seq<Mode>, fix: nat, little: nat)
    requires refMode.vdisplay > 0 && modes != []
    requires Leading(Scores(refMode, modes), |modes|, fix, little)
    ensures MostSimilar(refMode, modes, fix)
  {
    forall k | 0 <= k < |modes|
      ensures Scores(refMode, modes)[k] == if Candidate(refMode, modes[k]) then Distance(modes[k], refMode) else BOUND
    {
      ScoreAt(refMode, modes, k);
    }
  }

  method FindSimilarModes(refMode: Mode, modes: seq<Mode>) returns (fix: nat)
    requires refMode.vdisplay > 0 && modes != []
    ensures MostSimilar(refMode, modes, fix)
  {
    var refFactor := Factor(refMode);
    var little: nat := BOUND;
    fix := 0;
    ghost var s := Scores(refMode, modes);
    var i: nat := 0;
    while i < |modes|
      invariant 0 <= i <= |modes| && Leading(s, i, fix, little)
    {
      var mode := modes[i];
      ghost var score := s[i];
      assert score == if Candidate(refMode, mode) then Distance(mode, refMode) else BOUND by { ScoreAt(refMode, modes, i); }
      if mode.hdisplay >= refMode.hdisplay && mode.vdisplay >= refMode.vdisplay {
        var tmp := Factor(mode);
        var cmp := if tmp > refFactor then tmp - refFactor else refFactor - tmp;
        if little > cmp {
          little := cmp;
          fix := i;
        }
      }
      i := i + 1;
    }
    LeaderIsMostSimilar(refMode, modes, fix, little);
  }

  // ---------------------------------------------------------------- the assignment

  /** The least allowed controller from `c` on that is not taken. */
  function Pick(allowed: set<nat>, taken: set<nat>, count: nat, c: nat): (r: Option<nat>)
    requires c <= count
    ensures r.Some? ==> c <= r.value < count && r.value in allowed && r.value !in taken
    ensures forall d :: c <= d < (if r.Some? then r.value else count) && d in allowed ==> d in taken
    decreases count - c
  {
    if c == count then None
    else if c in allowed && c !in taken then Some(c)
    else Pick(allowed, taken, count, c + 1)
  }

  /** What connector `i` gets after the connectors before it have had their choice. */
  function Given(conns: seq<Connector>, enabled: seq<bool>, count: nat, i: nat): Option<nat>
    requires i < |conns| == |enabled|
    decreases i, 1
  {
    if enabled[i] && conns[i].encoder.Some? then Pick(conns[i].encoder.value, Taken(conns, enabled, count, i), count, 0)
    else None
  }

  function Taken(conns: seq<Connector>, enabled: seq<bool>, count: nat, n: nat): set<nat>
    requires n <= |conns| == |enabled|
    decreases n, 0
  {
    if n == 0 then {}
    else
      var g := Given(conns, enabled, count, n - 1);
      Taken(conns, enabled, count, n - 1) + (if g.Some? then {g.value} else {})
  }

  lemma TakenNext(conns: seq<Connector>, enabled: seq<bool>, count: nat, n: nat)
    requires n < |conns| == |enabled|
    ensures Taken(conns, enabled, count, n + 1) ==
            match Given(conns, enabled, count, n)
            case None => Taken(conns, enabled, count, n)
            case Some(c) => Taken(conns, enabled, count, n) + {c}
  {
  }

  /** Controller `c` went to a connector before `i`. */
  ghost predicate WentBefore(conns: seq<Connector>, enabled: seq<bool>, count: nat, i: nat, c: nat)
    requires i <= |conns| == |enabled|
  {
    exists j :: 0 <= j < i && Given(conns, enabled, count, j) == Some(c)
  }

  lemma {:induction false} TakenMeans(conns: seq<Connector>, enabled: seq<bool>, count: nat, n: nat, c: nat)
    requires n <= |conns| == |enabled|
    ensures c in Taken(conns, enabled, count, n) <==> WentBefore(conns, enabled, count, n, c)
  {
    if n > 0 {
      TakenMeans(conns, enabled, count, n - 1, c);
      var g := Given(conns, enabled, count, n - 1);
      if g == Some(c) {
        assert WentBefore(conns, enabled, count, n, c);
      } else if WentBefore(conns, enabled, count, n, c) {
        var j :| 0 <= j < n && Given(conns, enabled, count, j) == Some(c);
        assert j < n - 1;
      }
    }
  }

  /** No two connectors get the same controller, and each gets the least that its encoder allows and
      no earlier one has. */
  lemma AssignmentIsGreedy(conns: seq<Connector>, enabled: seq<bool>, count: nat, i: nat, c: nat)
    requires i < |conns| == |enabled| && Given(conns, enabled, count, i) == Some(c)
    ensures enabled[i] && conns[i].encoder.Some? && c in conns[i].encoder.value && c < count
    ensures forall j :: 0 <= j < |conns| && j != i ==> Given(conns, enabled, count, j) != Some(c)
    ensures forall d: nat | d < c && d in conns[i].encoder.value :: WentBefore(conns, enabled, count, i, d)
  {
    forall j | 0 <= j < |conns| && j != i ensures Given(conns, enabled, count, j) != Some(c) {
      TakenMeans(conns, enabled, count, i, c);
      TakenMeans(conns, enabled, count, j, c);
    }
    forall d: nat | d < c && d in conns[i].encoder.value ensures WentBefore(conns, enabled, count, i, d) {
      TakenMeans(conns, enabled, count, i, d);
    }
  }

  /** An enabled connector with an encoder goes without exactly when every controller its encoder
      allows went to an earlier connector. */
  lemma GoesWithoutIff(conns: seq<Connector>, enabled: seq<bool>, count: nat, i: nat)
    requires i < |conns| == |enabled| && enabled[i] && conns[i].encoder.Some?
    ensures Given(conns, enabled, count, i) == None <==>
            forall c: nat | c < count && c in conns[i].encoder.value :: WentBefore(conns, enabled, count, i, c)
  {
    forall c: nat | c < count ensures c in Taken(conns, enabled, count, i) <==> WentBefore(conns, enabled, count, i, c) {
      TakenMeans(conns, enabled, count, i, c);
    }
  }

  // ---------------------------------------------------------------- the configuration

  /** The first enabled connector among the first `n`, or the first enabled LCD. */
  function FirstOn(conns: seq<Connector>, enabled: seq<bool>, lcd: bool, n: nat): (r: int)
    requires n <= |conns| == |enabled|
    ensures -1 <= r < n
    ensures r >= 0 ==> enabled[r] && (lcd ==> conns[r].lcd)
    ensures forall k :: 0 <= k < (if r < 0 then n else r) ==> !(enabled[k] && (lcd ==> conns[k].lcd))
  {
    if n == 0 then -1
    else
      var r := FirstOn(conns, enabled, lcd, n - 1);
      if r >= 0 then r else if enabled[n - 1] && (lcd ==> conns[n - 1].lcd) then n - 1 else -1
  }

  /** The connector whose first mode all are fitted to: the first enabled LCD, else the first enabled. */
  function Reference(conns: seq<Connector>, enabled: seq<bool>): int
    requires |conns| == |enabled|
  {
    var l := FirstOn(conns, enabled, true, |conns|);
    if l >= 0 then l else FirstOn(conns, enabled, false, |conns|)
  }

  /** An enabled LCD goes before every other connector, and the first of its kind before the others;
      without an enabled connector there is no reference. */
  lemma ReferenceIsFirstLcd(conns: seq<Connector>, enabled: seq<bool>)
    requires |conns| == |enabled|
    ensures var r := Reference(conns, enabled);
            && -1 <= r < |conns| && (r == -1 <==> forall k :: 0 <= k < |conns| ==> !enabled[k])
            && (r >= 0 ==> enabled[r])
            && (r >= 0 ==>
                  if exists k :: 0 <= k < |conns| && enabled[k] && conns[k].lcd
                  then conns[r].lcd && forall k :: 0 <= k < r ==> !(enabled[k] && conns[k].lcd)
                  else forall k :: 0 <= k < r ==> !enabled[k])
  {
  }

  /** Each enabled connector has a mode. */
  ghost predicate Configurable(conns: seq<Connector>, enabled: seq<bool>) {
    |conns| == |enabled| && forall i :: 0 <= i < |conns| && enabled[i] ==> conns[i].modes != []
  }

  /** What the code divides by: the first modes of the first enabled connector and of the reference
      connector have lines. */
  ghost predicate Divisible(conns: seq<Connector>, enabled: seq<bool>)
    requires |conns| == |enabled|
  {
    HasLines(conns, FirstOn(conns, enabled, false, |conns|)) && HasLines(conns, Reference(conns, enabled))
  }

  ghost predicate HasLines(conns: seq<Connector>, i: int) {
    0 <= i < |conns| ==> conns[i].modes != [] && conns[i].modes[0].vdisplay > 0
  }

  /** The mode of an enabled connector is the most similar to the reference. */
  ghost predicate Fitted(modes: seq<Mode>, refMode: Mode, m: Option<Mode>)
    requires modes != [] && refMode.vdisplay > 0
  {
    exists k: nat :: k < |modes| && MostSimilar(refMode, modes, k) && m == Some(modes[k])
  }

  lemma HeadFits(modes: seq<Mode>, m: Option<Mode>)
    requires modes != [] && modes[0].vdisplay > 0 && Fitted(modes, modes[0], m)
    ensures m == Some(modes[0])
  {
    HeadIsMostSimilar(modes);
    var k: nat :| k < |modes| && MostSimilar(modes[0], modes, k) && m == Some(modes[k]);
    MostSimilarUnique(modes[0], modes, 0, k);
  }

  ghost predicate AllFitted(conns: seq<Connector>, enabled: seq<bool>, n: nat, refMode: Option<Mode>, modes: seq<Option<Mode>>)
    requires Configurable(conns, enabled) && n <= |conns| == |modes|
  {
    forall i :: 0 <= i < n ==>
      if enabled[i] then refMode.Some? && refMode.value.vdisplay > 0 && Fitted(conns[i].modes, refMode.value, modes[i])
      else modes[i] == None
  }

  /** The controllers after `n` connectors had their choice; a connector that gets none keeps its entry. */
  ghost predicate AllGiven(conns: seq<Connector>, enabled: seq<bool>, count: nat, n: nat,
                           before: seq<Option<nat>>, crtcs: seq<Option<nat>>)
    requires n <= |conns| == |enabled| == |before| == |crtcs|
  {
    && (forall i :: 0 <= i < n ==>
          crtcs[i] == if Given(conns, enabled, count, i).Some? then Given(conns, enabled, count, i) else before[i])
    && (forall i :: n <= i < |crtcs| ==>
          crtcs[i] == before[i] || (Given(conns, enabled, count, i).Some? && crtcs[i] == Given(conns, enabled, count, i)))
  }

  /** The search of a controller for one connector. */
  method ChooseCrtc(allowed: set<nat>, used: set<nat>, count: nat) returns (r: Option<nat>)
    ensures r == Pick(allowed, used, count, 0)
  {
    var c := 0;
    while c < count
      invariant 0 <= c <= count
      invariant Pick(allowed, used, count, 0) == Pick(allowed, used, count, c)
    {
      if c in allowed && c !in used { return Some(c); }
      c := c + 1;
    }
    return None;
  }

  /** The mode that everything is fitted to once `n` connectors are seen: a reference found before, or
      the first mode of the first enabled connector. */
  function Guide(conns: seq<Connector>, enabled: seq<bool>, n: nat, refMode: Option<Mode>): Option<Mode>
    requires Configurable(conns, enabled) && n <= |conns|
  {
    var r := FirstOn(conns, enabled, false, n);
    if refMode.Some? || r < 0 then refMode else Some(conns[r].modes[0])
  }

  /** The mode of one enabled connector. */
  method FitMode(conns: seq<Connector>, enabled: seq<bool>, modes: array<Option<Mode>>, refMode: Option<Mode>, ref0: int, i: nat)
    returns (ref: int)
    requires Configurable(conns, enabled) && i < modes.Length == |conns| && -1 <= ref0 < |conns| && enabled[i]
    requires if refMode.Some? then refMode.value.vdisplay > 0 else HasLines(conns, if ref0 == -1 then i else ref0)
    requires ref0 >= 0 && refMode == None ==> enabled[ref0] && modes[ref0] == Some(conns[ref0].modes[0])
    modifies modes
    ensures ref == if ref0 == -1 then i else ref0
    ensures modes[..] == old(modes[..])[i := modes[i]]
    ensures Fitted(conns[i].modes, if refMode.Some? then refMode.value else conns[ref].modes[0], modes[i])
    ensures refMode == None ==> modes[ref] == Some(conns[ref].modes[0])
  {
    ref := ref0;
    if ref == -1 {
      modes[i] := Some(conns[i].modes[0]);
      ref := i;
    }
    var k := FindSimilarModes(if refMode.Some? then refMode.value else modes[ref].value, conns[i].modes);
    modes[i] := Some(conns[i].modes[k]);
    if refMode == None && ref == i { HeadFits(conns[i].modes, modes[i]); }
  }

  /** The controller of one connector. */
  method GiveCrtc(conns: seq<Connector>, enabled: seq<bool>, count: nat, crtcs: array<Option<nat>>, i: nat, used0: set<nat>)
    returns (used: set<nat>)
    requires i < crtcs.Length == |conns| == |enabled| && enabled[i] && used0 == Taken(conns, enabled, count, i)
    modifies crtcs
    ensures used == Taken(conns, enabled, count, i + 1)
    ensures var g := Given(conns, enabled, count, i);
            crtcs[..] == if g.Some? then old(crtcs[..])[i := g] else old(crtcs[..])
  {
    TakenNext(conns, enabled, count, i);
    used := used0;
    if conns[i].encoder.Some? {
      var c := ChooseCrtc(conns[i].encoder.value, used, count);
      if c.Some? {
        used := used + {c.value};
        crtcs[i] := c;
      }
    }
  }

  /** What one pass is given: connectors, controllers, a reference mode if known, the entries before. */
  datatype Request = Request(conns: seq<Connector>, enabled: seq<bool>, count: nat, refMode: Option<Mode>,
                             before: seq<Option<nat>>)

  type Job = r: Request |
    Configurable(r.conns, r.enabled) && |r.before| == |r.conns| && (r.refMode.Some? ==> r.refMode.value.vdisplay > 0)
    ghost witness Request([], [], 0, None, [])

  /** The state of a pass, `i` of whose connectors are done. */
  datatype Progress = Progress(job: Job, i: nat, ref: int, used: set<nat>, modes: seq<Option<Mode>>, crtcs: seq<Option<nat>>)

  /** No LCD among the first `i` connectors; `ref` is the first enabled one and shows its first mode. */
  ghost predicate NoLcdYet(conns: seq<Connector>, enabled: seq<bool>, i: nat, ref: int, modes: seq<Option<Mode>>)
    requires Configurable(conns, enabled) && i <= |conns| == |modes|
  {
    && FirstOn(conns, enabled, true, i) == -1 && ref == FirstOn(conns, enabled, false, i)
    && (ref >= 0 ==> modes[ref] == Some(conns[ref].modes[0]))
  }

  ghost predicate ProgressOk(p: Progress) {
    var t := p.job;
    && |t.conns| == |p.modes| == |p.crtcs| && p.i <= |t.conns| && -1 <= p.ref < |t.conns|
    && (t.refMode == None ==> NoLcdYet(t.conns, t.enabled, p.i, p.ref, p.modes))
    && AllFitted(t.conns, t.enabled, p.i, Guide(t.conns, t.enabled, p.i, t.refMode), p.modes)
    && AllGiven(t.conns, t.enabled, t.count, p.i, t.before, p.crtcs)
    && p.used == Taken(t.conns, t.enabled, t.count, p.i)
  }

  type Passing = p: Progress | ProgressOk(p) ghost witness Progress(Request([], [], 0, None, []), 0, -1, {}, [], [])

  lemma FittedNext(conns: seq<Connector>, enabled: seq<bool>, n: nat, refMode: Option<Mode>,
                   modes: seq<Option<Mode>>, m: Option<Mode>)
    requires Configurable(conns, enabled) && n < |conns| == |modes| && AllFitted(conns, enabled, n, refMode, modes)
    requires if enabled[n] then refMode.Some? && refMode.value.vdisplay > 0 && Fitted(conns[n].modes, refMode.value, m) else m == None
    ensures AllFitted(conns, enabled, n + 1, refMode, modes[n := m])
  {
  }

  /** Before the first enabled connector there is nothing to fit. */
  lemma NothingFitted(conns: seq<Connector>, enabled: seq<bool>, n: nat, refMode: Option<Mode>, modes: seq<Option<Mode>>)
    requires Configurable(conns, enabled) && n <= |conns| == |modes| && FirstOn(conns, enabled, false, n) == -1
    requires AllFitted(conns, enabled, n, None, modes)
    ensures AllFitted(conns, enabled, n, refMode, modes)
  {
    assert forall k :: 0 <= k < n ==> !enabled[k];
  }

  lemma GivenNext(conns: seq<Connector>, enabled: seq<bool>, count: nat, n: nat,
                  before: seq<Option<nat>>, crtcs: seq<Option<nat>>, crtcs': seq<Option<nat>>)
    requires n < |conns| == |enabled| == |before| == |crtcs| && AllGiven(conns, enabled, count, n, before, crtcs)
    requires var g := Given(conns, enabled, count, n); crtcs' == if g.Some? then crtcs[n := g] else crtcs
    ensures AllGiven(conns, enabled, count, n + 1, before, crtcs')
  {
  }

  lemma NoLcdNext(conns: seq<Connector>, enabled: seq<bool>, i: nat, ref0: int, ref: int, modes: seq<Option<Mode>>, m: Option<Mode>)
    requires Configurable(conns, enabled) && i < |conns| == |modes| && NoLcdYet(conns, enabled, i, ref0, modes)
    requires enabled[i] ==> !conns[i].lcd
    requires ref == if enabled[i] && ref0 == -1 then i else ref0
    requires ref == i ==> m == Some(conns[i].modes[0])
    ensures NoLcdYet(conns, enabled, i + 1, ref, modes[i := m])
  {
  }

  lemma PassedOver(p: Passing) returns (q: Passing)
    requires p.i < |p.job.conns| && !p.job.enabled[p.i]
    ensures q == p.(i := p.i + 1, modes := p.modes[p.i := None])
  {
    var t := p.job;
    TakenNext(t.conns, t.enabled, t.count, p.i);
    assert Given(t.conns, t.enabled, t.count, p.i) == None;
    GivenNext(t.conns, t.enabled, t.count, p.i, t.before, p.crtcs, p.crtcs);
    FittedNext(t.conns, t.enabled, p.i, Guide(t.conns, t.enabled, p.i, t.refMode), p.modes, None);
    if t.refMode == None { NoLcdNext(t.conns, t.enabled, p.i, p.ref, p.ref, p.modes, None); }
    q := p.(i := p.i + 1, modes := p.modes[p.i := None]);
  }

  lemma Served(p: Passing, m: Option<Mode>, ref: int, used: set<nat>, crtcs: seq<Option<nat>>) returns (q: Passing)
    requires p.i < |p.job.conns| && p.job.enabled[p.i] && (p.job.refMode == None ==> !p.job.conns[p.i].lcd)
    requires ref == (if p.ref == -1 then p.i else p.ref) && (p.job.enabled[ref] || p.job.refMode.Some?)
    requires p.job.refMode == None ==> HasLines(p.job.conns, ref)
    requires Fitted(p.job.conns[p.i].modes, if p.job.refMode.Some? then p.job.refMode.value else p.job.conns[ref].modes[0], m)
    requires p.job.refMode == None && ref == p.i ==> m == Some(p.job.conns[p.i].modes[0])
    requires used == Taken(p.job.conns, p.job.enabled, p.job.count, p.i + 1)
    requires var g := Given(p.job.conns, p.job.enabled, p.job.count, p.i);
             crtcs == if g.Some? then p.crtcs[p.i := g] else p.crtcs
    ensures q == p.(i := p.i + 1, ref := ref, modes := p.modes[p.i := m], used := used, crtcs := crtcs)
  {
    var t := p.job;
    GivenNext(t.conns, t.enabled, t.count, p.i, t.before, p.crtcs, crtcs);
    var guide := Guide(t.conns, t.enabled, p.i + 1, t.refMode);
    if t.refMode == None && p.ref == -1 { NothingFitted(t.conns, t.enabled, p.i, guide, p.modes); }
    assert AllFitted(t.conns, t.enabled, p.i, guide, p.modes);
    FittedNext(t.conns, t.enabled, p.i, guide, p.modes, m);
    if t.refMode == None { NoLcdNext(t.conns, t.enabled, p.i, p.ref, ref, p.modes, m); }
    q := p.(i := p.i + 1, ref := ref, modes := p.modes[p.i := m], used := used, crtcs := crtcs);
  }

  lemma StopsAtLcd(p: Passing)
    requires p.i < |p.job.conns| && p.job.enabled[p.i] && p.job.conns[p.i].lcd && p.job.refMode == None
    ensures FirstOn(p.job.conns, p.job.enabled, true, |p.job.conns|) == p.i
    ensures AllGiven(p.job.conns, p.job.enabled, p.job.count, 0, p.job.before, p.crtcs)
  {
  }

  lemma PassComplete(p: Passing)
    requires p.i == |p.job.conns|
    ensures p.job.refMode == None ==> FirstOn(p.job.conns, p.job.enabled, true, |p.job.conns|) == -1
    ensures AllFitted(p.job.conns, p.job.enabled, p.i, Guide(p.job.conns, p.job.enabled, p.i, p.job.refMode), p.modes)
    ensures AllGiven(p.job.conns, p.job.enabled, p.job.count, p.i, p.job.before, p.crtcs)
  {
  }

  /** One pass over the connectors; it stops at the first enabled LCD if there is no reference yet. */
  method Pass(conns: seq<Connector>, enabled: seq<bool>, count: nat, modes: array<Option<Mode>>, crtcs: array<Option<nat>>,
              refMode: Option<Mode>, ref0: int, ghost before: seq<Option<nat>>)
    returns (lcd: int, ref: int)
    requires Configurable(conns, enabled) && Divisible(conns, enabled) && modes.Length == crtcs.Length == |conns| == |before|
    requires -1 <= ref0 < |conns| && (refMode == None ==> ref0 == -1)
    requires refMode.Some? ==> refMode.value.vdisplay > 0
    requires AllGiven(conns, enabled, count, 0, before, crtcs[..])
    modifies modes, crtcs
    ensures lcd == if refMode == None then FirstOn(conns, enabled, true, |conns|) else -1
    ensures -1 <= ref < |conns|
    ensures lcd < 0 ==> AllFitted(conns, enabled, |conns|, Guide(conns, enabled, |conns|, refMode), modes[..])
    ensures AllGiven(conns, enabled, count, if lcd < 0 then |conns| else 0, before, crtcs[..])
  {
    var used: set<nat> := {};
    ref := ref0;
    var i := 0;
    ghost var p: Passing := Progress(Request(conns, enabled, count, refMode, before), 0, ref, {}, modes[..], crtcs[..]);
    while i < |conns|
      invariant p == Progress(Request(conns, enabled, count, refMode, before), i, ref, used, modes[..], crtcs[..])
    {
      if !enabled[i] {
        modes[i] := None;
        p := PassedOver(p);
      } else if refMode == None && conns[i].lcd {
        modes[i] := Some(conns[i].modes[0]);
        StopsAtLcd(p);
        return i, ref;
      } else {
        ref := FitMode(conns, enabled, modes, refMode, ref, i);
        used := GiveCrtc(conns, enabled, count, crtcs, i, used);
        p := Served(p, modes[i], ref, used, crtcs[..]);
      }
      i := i + 1;
    }
    PassComplete(p);
    lcd := -1;
  }

  /** Fits the modes and hands out the controllers; once an LCD is found as the reference the pass
      starts again, so there are at most two. */
  method InitialConfig(conns: seq<Connector>, enabled: seq<bool>, count: nat,
                       modes: array<Option<Mode>>, crtcs: array<Option<nat>>)
    returns (passes: nat)
    requires Configurable(conns, enabled) && Divisible(conns, enabled) && modes.Length == crtcs.Length == |conns|
    modifies modes, crtcs
    ensures passes <= 2
    ensures var r := Reference(conns, enabled);
            AllFitted(conns, enabled, |conns|, if r < 0 then None else Some(conns[r].modes[0]), modes[..])
    ensures AllGiven(conns, enabled, count, |conns|, old(crtcs[..]), crtcs[..])
  {
    ghost var before := crtcs[..];
    var refMode: Option<Mode> := None;
    var lcd, ref := Pass(conns, enabled, count, modes, crtcs, None, -1, before);
    passes := 1;
    while lcd >= 0
      invariant passes == if refMode == None then 1 else 2
      invariant -1 <= ref < |conns| && -1 <= lcd < |conns|
      invariant refMode == None ==> lcd == FirstOn(conns, enabled, true, |conns|)
      invariant refMode.Some? ==> lcd < 0 && FirstOn(conns, enabled, true, |conns|) >= 0
                                  && refMode == Some(conns[Reference(conns, enabled)].modes[0])
      invariant lcd < 0 ==> AllFitted(conns, enabled, |conns|, Guide(conns, enabled, |conns|, refMode), modes[..])
      invariant AllGiven(conns, enabled, count, if lcd < 0 then |conns| else 0, before, crtcs[..])
      decreases if refMode == None then 1 else 0
    {
      refMode := Some(conns[lcd].modes[0]);
      lcd, ref := Pass(conns, enabled, count, modes, crtcs, refMode, ref, before);
      passes := passes + 1;
    }
  }
}
