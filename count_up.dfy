/** CountUp's number formatting: the option defaults and their normalisation, and
    `formatNumber`, which splits the fixed-point text at the dot, groups the integer
    part by repeatedly rewriting the leftmost match of `/(\d+)(\d{3})/`, and wraps
    the result in the prefix and suffix. `toFixed` itself is not modelled: the
    method takes its output. */
module CountUp {
  import opened Strings

  /** `this.options` after construction. */
  datatype Options = Options(useEasing: bool, useGrouping: bool, separator: string,
                             decimal: string, prefix: string, suffix: string)

  /** The `options` argument: each member given or absent. */
  datatype PassedOptions = PassedOptions(useEasing: Option<bool>, useGrouping: Option<bool>,
                                         separator: Option<string>, decimal: Option<string>,
                                         prefix: Option<string>, suffix: Option<string>)

  const NoOptions: PassedOptions := PassedOptions(None, None, None, None, None, None)

  /** A default, replaced by the passed member when there is one
      (`this.options[key] = options[key]`). */
  function Override<T>(default: T, passed: Option<T>): T {
    if passed.Some? then passed.value else default
  }

  /** Options as the constructor leaves them: grouping is never on with an empty
      separator. */
  predicate Normalised(o: Options) {
    o.separator == "" ==> !o.useGrouping
  }

  /** The defaults, overridden member by member, then the three fix-ups: an empty
      separator turns grouping off, and a missing or empty prefix or suffix becomes
      `""`. */
  function Normalise(p: PassedOptions): (o: Options)
    ensures Normalised(o)
    ensures o.useEasing == Override(true, p.useEasing)
    ensures o.separator == Override(",", p.separator) && o.decimal == Override(".", p.decimal)
    ensures o.useGrouping <==> Override(true, p.useGrouping) && o.separator != ""
    ensures o.prefix == Override("", p.prefix) && o.suffix == Override("", p.suffix)
  {
    var merged := Options(Override(true, p.useEasing), Override(true, p.useGrouping),
                          Override(",", p.separator), Override(".", p.decimal),
                          Override("", p.prefix), Override("", p.suffix));
    if merged.separator == "" then merged.(useGrouping := false) else merged
  }

  /** The options given back as an `options` argument. */
  function AsPassed(o: Options): PassedOptions {
    PassedOptions(Some(o.useEasing), Some(o.useGrouping), Some(o.separator), Some(o.decimal),
                  Some(o.prefix), Some(o.suffix))
  }

  /** Example: with no options, CountUp eases and groups with `,` and `.`, and no prefix or
      suffix. */
  lemma DefaultOptions()
    ensures Normalise(NoOptions) == Options(true, true, ",", ".", "", "")
  {
  }

  /** Normalising options that are already normalised changes nothing. */
  lemma NormaliseIdempotent(p: PassedOptions)
    ensures Normalise(AsPassed(Normalise(p))) == Normalise(p)
  {
  }

  // ---------------------------------------------------------------------------
  // The regular expression `/(\d+)(\d{3})/`

  /** A match of the expression can start at `p` iff four digits start there. */
  predicate MatchAt(s: string, p: int) {
    0 <= p && p + 4 <= |s| &&
    IsDigit(s[p]) && IsDigit(s[p + 1]) && IsDigit(s[p + 2]) && IsDigit(s[p + 3])
  }

  /** The leftmost position from `i` on where a match starts (`rgx.test` is whether
      there is one). */
  function FirstMatch(s: string, i: nat): (r: Option<nat>)
    ensures r.Some? ==> i <= r.value && MatchAt(s, r.value)
    ensures r.Some? ==> forall q :: i <= q < r.value ==> !MatchAt(s, q)
    ensures r.None? ==> forall q :: i <= q ==> !MatchAt(s, q)
    decreases |s| - i
  {
    if i + 4 > |s| then None
    else if MatchAt(s, i) then Some(i)
    else FirstMatch(s, i + 1)
  }

  /** How many digits follow position `i`: the greedy `\d+` then gives back three. */
  function RunLength(s: string, i: nat): (n: nat)
    requires i <= |s|
    ensures i + n <= |s|
    ensures forall k :: i <= k < i + n ==> IsDigit(s[k])
    ensures i + n < |s| ==> !IsDigit(s[i + n])
    decreases |s| - i
  {
    if i == |s| || !IsDigit(s[i]) then 0 else 1 + RunLength(s, i + 1)
  }

  /** `s.replace(rgx, "$1" + sep + "$2")` for a match at `p`: the separator goes in
      before the last three digits of the run starting at `p`. */
  function ReplaceMatch(s: string, p: nat, sep: string): (r: string)
    requires MatchAt(s, p)
  {
    var e := p + RunLength(s, p);
    assert RunLength(s, p) >= 4 by {
      assert RunLength(s, p + 1) >= 3 by {
        assert RunLength(s, p + 2) >= 2 by {
          assert RunLength(s, p + 3) >= 1;
        }
      }
    }
    s[..e - 3] + sep + s[e - 3..]
  }

  // ---------------------------------------------------------------------------
  // The reference grouping

  /** Digits grouped by three from the right with `sep` between groups. */
  function Group(d: string, sep: string): string
    decreases |d|
  {
    if |d| <= 3 then d else Group(d[..|d| - 3], sep) + sep + d[|d| - 3..]
  }

  /** `sep` followed by each group of three of `t`, from the left (`|t|` a multiple
      of three). */
  function SepGroups(t: string, sep: string): string
    decreases |t|
  {
    if |t| < 3 then [] else SepGroups(t[..|t| - 3], sep) + sep + t[|t| - 3..]
  }

  /** The characters of `s` that are digits, in order. */
  function DigitsOf(s: string): (r: string)
    ensures AllDigits(r)
  {
    if s == [] then [] else DigitsOf(s[..|s| - 1]) + (if IsDigit(s[|s| - 1]) then [s[|s| - 1]] else [])
  }

  lemma {:induction false} DigitsOfAppend(a: string, b: string)
    ensures DigitsOf(a + b) == DigitsOf(a) + DigitsOf(b)
    decreases |b|
  {
    if b != [] {
      assert (a + b)[..|a + b| - 1] == a + b[..|b| - 1];
      DigitsOfAppend(a, b[..|b| - 1]);
    } else {
      assert a + b == a;
    }
  }

  lemma {:induction false} DigitsOfAll(s: string)
    requires AllDigits(s)
    ensures DigitsOf(s) == s
  {
    if s != [] {
      var init, last := s[..|s| - 1], s[|s| - 1];
      assert AllDigits(init) by {
        forall i | 0 <= i < |init| ensures IsDigit(init[i]) {
          assert init[i] == s[i];
        }
      }
      DigitsOfAll(init);
      assert DigitsOf(s) == DigitsOf(init) + [last];
      assert init + [last] == s;
    }
  }

  lemma {:induction false} DigitsOfNone(s: string)
    requires NoDigits(s)
    ensures DigitsOf(s) == []
  {
    if s != [] {
      DigitsOfNone(s[..|s| - 1]);
    }
  }

  /** Dropping the separators from the grouped text gives back the digits. */
  lemma {:induction false} GroupKeepsDigits(d: string, sep: string)
    requires AllDigits(d) && NoDigits(sep)
    ensures DigitsOf(Group(d, sep)) == d
    decreases |d|
  {
    if |d| <= 3 {
      DigitsOfAll(d);
    } else {
      var head := d[..|d| - 3];
      var tail := d[|d| - 3..];
      assert Group(d, sep) == Group(head, sep) + sep + tail;
      assert AllDigits(head) && AllDigits(tail);
      GroupKeepsDigits(head, sep);
      DigitsOfAppend(Group(head, sep) + sep, tail);
      DigitsOfAppend(Group(head, sep), sep);
      DigitsOfNone(sep);
      DigitsOfAll(tail);
      assert head + tail == d;
    }
  }

  /** One separator between each pair of neighbouring groups, and the leading group
      holding one to three digits. */
  lemma {:induction false} GroupLength(d: string, sep: string)
    requires |d| >= 1
    ensures |Group(d, sep)| == |d| + ((|d| - 1) / 3) * |sep|
    decreases |d|
  {
    if |d| > 3 {
      var head := d[..|d| - 3];
      GroupLength(head, sep);
      var k := (|head| - 1) / 3;
      assert (|d| - 1) / 3 == k + 1 by {
        assert |d| - 1 == (|head| - 1) + 3;
      }
      assert (k + 1) * |sep| == k * |sep| + |sep|;
      assert |Group(d, sep)| == |Group(head, sep)| + |sep| + 3;
    }
  }

  /** The grouped text has no four digits in a row, so the expression no longer
      matches it. */
  lemma {:induction false} GroupHasNoMatch(d: string, sep: string)
    requires sep != "" && NoDigits(sep)
    ensures forall q :: !MatchAt(Group(d, sep), q)
    decreases |d|
  {
    if |d| > 3 {
      var x := Group(d[..|d| - 3], sep);
      GroupHasNoMatch(d[..|d| - 3], sep);
      NoMatchAcrossSeparator(x, sep, d[|d| - 3..]);
    }
  }

  /** Gluing `x` and a block of at most three characters with a non-empty,
      digit-free separator between creates no match. */
  lemma NoMatchAcrossSeparator(x: string, sep: string, tail: string)
    requires sep != "" && NoDigits(sep) && |tail| <= 3
    requires forall q :: !MatchAt(x, q)
    ensures forall q :: !MatchAt(x + sep + tail, q)
  {
    var s := x + sep + tail;
    forall q | 0 <= q && q + 4 <= |s| ensures !MatchAt(s, q) {
      if q + 4 <= |x| {
        assert !MatchAt(x, q);
        assert s[q] == x[q] && s[q + 1] == x[q + 1] && s[q + 2] == x[q + 2] && s[q + 3] == x[q + 3];
      } else {
        var k := if q < |x| then |x| else q;
        assert s[k] == sep[k - |x|];
        NonDigitInWindow(s, q, k);
      }
    }
  }

  /** A window of four holding a non-digit is not a match. */
  lemma NonDigitInWindow(s: string, q: int, k: int)
    requires 0 <= q <= k < q + 4 && k < |s| && !IsDigit(s[k])
    ensures !MatchAt(s, q)
  {
    if k == q {
    } else if k == q + 1 {
    } else if k == q + 2 {
    }
  }

  // ---------------------------------------------------------------------------
  // The loop of `formatNumber`

  /** The integer part while the loop runs: `sign`, the `h` leading digits not yet
      grouped, then the groups of three already separated. */
  function Partial(sign: string, d: string, h: nat, sep: string): string
    requires h <= |d|
  {
    sign + d[..h] + SepGroups(d[h..], sep)
  }

  lemma {:induction false} SepGroupsHasNoMatch(t: string, sep: string)
    requires sep != "" && NoDigits(sep)
    ensures forall q :: !MatchAt(SepGroups(t, sep), q)
    decreases |t|
  {
    if |t| >= 3 {
      SepGroupsHasNoMatch(t[..|t| - 3], sep);
      NoMatchAcrossSeparator(SepGroups(t[..|t| - 3], sep), sep, t[|t| - 3..]);
    }
  }

  /** A three-digit block moves from the ungrouped head to the groups. */
  lemma {:induction false} SepGroupsCons(a: string, t: string, sep: string)
    requires |a| == 3 && |t| % 3 == 0
    ensures SepGroups(a + t, sep) == sep + a + SepGroups(t, sep)
    decreases |t|
  {
    var at := a + t;
    if |t| == 0 {
      assert at == a;
      assert at[..|at| - 3] == [] && at[|at| - 3..] == a;
      assert SepGroups(at, sep) == SepGroups([], sep) + sep + a;
    } else {
      var t' := t[..|t| - 3];
      var last := t[|t| - 3..];
      SepGroupsCons(a, t', sep);
      assert at[..|at| - 3] == a + t';
      assert at[|at| - 3..] == last;
      var g' := SepGroups(t', sep);
      assert SepGroups(at, sep) == (sep + a + g') + sep + last;
      assert SepGroups(t, sep) == g' + sep + last;
      assert (sep + a + g') + sep + last == sep + a + (g' + sep + last);
    }
  }

  /** `SepGroups` starts with a non-digit, or is empty. */
  lemma SepGroupsStart(t: string, sep: string)
    requires sep != "" && NoDigits(sep) && |t| % 3 == 0 && |t| >= 3
    ensures |SepGroups(t, sep)| > 0 && !IsDigit(SepGroups(t, sep)[0])
  {
    SepGroupsCons(t[..3], t[3..], sep);
    assert t[..3] + t[3..] == t;
  }

  /** The layout of a partial result: the sign, `h` digits, then the groups, which
      start with a non-digit. */
  lemma PartialLayout(sign: string, d: string, h: nat, sep: string)
    requires sign == "" || sign == "-"
    requires AllDigits(d) && h <= |d| && (|d| - h) % 3 == 0
    requires sep != "" && NoDigits(sep)
    ensures var s := Partial(sign, d, h, sep);
            var p := |sign|;
            && |s| == p + h + |SepGroups(d[h..], sep)|
            && (forall k :: 0 <= k < p ==> s[k] == '-')
            && (forall k :: p <= k < p + h ==> IsDigit(s[k]))
            && (forall k :: 0 <= k < |SepGroups(d[h..], sep)| ==> s[p + h + k] == SepGroups(d[h..], sep)[k])
            && (p + h < |s| ==> !IsDigit(s[p + h]))
  {
    var s := Partial(sign, d, h, sep);
    var g := SepGroups(d[h..], sep);
    var p := |sign|;
    assert s == sign + d[..h] + g;
    assert forall k :: p <= k < p + h ==> s[k] == d[k - p];
    if |d[h..]| >= 3 {
      SepGroupsStart(d[h..], sep);
      assert s[p + h] == g[0];
    } else {
      assert |d[h..]| == 0;
    }
  }

  /** Where the expression matches a partial result: at the head, exactly when the
      head still has four digits or more, and then across the whole head. */
  lemma PartialMatch(sign: string, d: string, h: nat, sep: string)
    requires sign == "" || sign == "-"
    requires AllDigits(d) && h <= |d| && (|d| - h) % 3 == 0
    requires sep != "" && NoDigits(sep)
    ensures var s := Partial(sign, d, h, sep);
            && (forall q :: q < |sign| ==> !MatchAt(s, q))
            && (h >= 4 ==> MatchAt(s, |sign|) && RunLength(s, |sign|) == h)
            && (h < 4 ==> forall q :: !MatchAt(s, q))
  {
    var s := Partial(sign, d, h, sep);
    var p := |sign|;
    PartialLayout(sign, d, h, sep);
    NoMatchInSign(s, p);
    SepGroupsHasNoMatch(d[h..], sep);
    NoMatchPastHead(s, p, h, SepGroups(d[h..], sep));
    HeadMatch(s, p, h);
  }

  /** A text with no match before `p` or reaching past `p + h`, and a run of exactly
      `h` digits at `p`: the leftmost match, if any, is the run. */
  lemma HeadMatch(s: string, p: nat, h: nat)
    requires p + h <= |s|
    requires forall q :: q < p ==> !MatchAt(s, q)
    requires forall q :: q + 4 > p + h ==> !MatchAt(s, q)
    requires forall k :: p <= k < p + h ==> IsDigit(s[k])
    requires p + h < |s| ==> !IsDigit(s[p + h])
    ensures h >= 4 ==> MatchAt(s, p) && RunLength(s, p) == h
    ensures h < 4 ==> forall q :: !MatchAt(s, q)
  {
    if h >= 4 {
      assert MatchAt(s, p);
      RunLengthOfHead(s, p, h);
    } else {
      forall q ensures !MatchAt(s, q) {
        if q >= p {
          assert q + 4 > p + h;
        }
      }
    }
  }

  lemma NoMatchInSign(s: string, p: nat)
    requires p <= |s| && forall k :: 0 <= k < p ==> s[k] == '-'
    ensures forall q :: q < p ==> !MatchAt(s, q)
  {
    forall q | 0 <= q < p && q + 4 <= |s| ensures !MatchAt(s, q) {
      NonDigitInWindow(s, q, q);
    }
  }

  lemma NoMatchPastHead(s: string, p: nat, h: nat, g: string)
    requires |s| == p + h + |g|
    requires forall k :: 0 <= k < |g| ==> s[p + h + k] == g[k]
    requires p + h < |s| ==> !IsDigit(s[p + h])
    requires forall q :: !MatchAt(g, q)
    ensures forall q :: q + 4 > p + h ==> !MatchAt(s, q)
  {
    forall q | 0 <= q && q + 4 <= |s| && q + 4 > p + h ensures !MatchAt(s, q) {
      if q >= p + h {
        var q' := q - (p + h);
        assert !MatchAt(g, q');
        assert s[q] == g[q'] && s[q + 1] == g[q' + 1] && s[q + 2] == g[q' + 2] && s[q + 3] == g[q' + 3];
      } else {
        NonDigitInWindow(s, q, p + h);
      }
    }
  }

  lemma {:induction false} RunLengthOfHead(s: string, p: nat, h: nat)
    requires p + h <= |s|
    requires forall k :: p <= k < p + h ==> IsDigit(s[k])
    requires p + h < |s| ==> !IsDigit(s[p + h])
    ensures RunLength(s, p) == h
    decreases h
  {
    if h > 0 {
      RunLengthOfHead(s, p + 1, h - 1);
    }
  }

  /** One turn of the loop on a partial result moves one group of three out of the
      head. */
  lemma PartialStep(sign: string, d: string, h: nat, sep: string)
    requires sign == "" || sign == "-"
    requires AllDigits(d) && 4 <= h <= |d| && (|d| - h) % 3 == 0
    requires sep != "" && NoDigits(sep)
    ensures MatchAt(Partial(sign, d, h, sep), |sign|)
    ensures ReplaceMatch(Partial(sign, d, h, sep), |sign|, sep) == Partial(sign, d, h - 3, sep)
  {
    PartialMatch(sign, d, h, sep);
    var s := Partial(sign, d, h, sep);
    ReplaceAtRun(s, |sign|, h, sep);
    PartialCut(sign, d, h, sep);
    PartialShift(sign, d, h, sep);
  }

  /** The replacement at a run of `h` digits puts the separator before its last three. */
  lemma ReplaceAtRun(s: string, p: nat, h: nat, sep: string)
    requires MatchAt(s, p) && RunLength(s, p) == h
    ensures h >= 4
    ensures ReplaceMatch(s, p, sep) == s[..p + h - 3] + sep + s[p + h - 3..]
  {
    assert RunLength(s, p + 1) >= 3 by {
      assert RunLength(s, p + 2) >= 2 by {
        assert RunLength(s, p + 3) >= 1;
      }
    }
  }

  /** Cutting a partial result before the head's last three digits. */
  lemma PartialCut(sign: string, d: string, h: nat, sep: string)
    requires 3 <= h <= |d|
    ensures var s := Partial(sign, d, h, sep);
            && s[..|sign| + h - 3] == sign + d[..h - 3]
            && s[|sign| + h - 3..] == d[h - 3..h] + SepGroups(d[h..], sep)
  {
    var s := Partial(sign, d, h, sep);
    var a, b, g := sign + d[..h - 3], d[h - 3..h], SepGroups(d[h..], sep);
    assert d[..h] == d[..h - 3] + b;
    assert s == a + b + g;
  }

  /** The partial result with three digits fewer in the head has them as its first
      group. */
  lemma PartialShift(sign: string, d: string, h: nat, sep: string)
    requires 3 <= h <= |d| && (|d| - h) % 3 == 0
    ensures Partial(sign, d, h - 3, sep) ==
            (sign + d[..h - 3]) + sep + (d[h - 3..h] + SepGroups(d[h..], sep))
  {
    var b, g := d[h - 3..h], SepGroups(d[h..], sep);
    SepGroupsCons(b, d[h..], sep);
    assert b + d[h..] == d[h - 3..];
    assert Partial(sign, d, h - 3, sep) == sign + d[..h - 3] + (sep + b + g);
  }

  /** When the head is down to one to three digits, the partial result is the
      grouped number. */
  lemma {:induction false} PartialDone(d: string, h: nat, sep: string)
    requires 1 <= h <= 3 && h <= |d| && (|d| - h) % 3 == 0
    ensures d[..h] + SepGroups(d[h..], sep) == Group(d, sep)
    decreases |d|
  {
    if |d| == h {
      assert d[..h] == d;
      assert d[h..] == [];
    } else {
      var d', last := d[..|d| - 3], d[|d| - 3..];
      var t := d[h..];
      assert (|d'| - h) % 3 == 0 by {
        assert |d'| - h == (|d| - h) - 3;
      }
      PartialDone(d', h, sep);
      assert d'[..h] == d[..h];
      assert t[..|t| - 3] == d'[h..];
      assert t[|t| - 3..] == last;
      assert SepGroups(t, sep) == SepGroups(d'[h..], sep) + sep + last;
      assert Group(d, sep) == Group(d', sep) + sep + last;
      assert d[..h] + (SepGroups(d'[h..], sep) + sep + last) ==
             (d'[..h] + SepGroups(d'[h..], sep)) + sep + last;
    }
  }

  // ---------------------------------------------------------------------------
  // formatNumber

  /** `x[0]` of `s.split(".")`: the text before the first dot. */
  function IntegerPart(s: string): (r: string)
    ensures |r| <= |s|
  {
    var i := IndexOf(s, '.');
    if i < 0 then s else s[..i]
  }

  function Sign(s: string): (r: string)
    ensures r == "" || r == "-"
  {
    if |s| > 0 && s[0] == '-' then "-" else ""
  }

  /** The digits before the dot, after the sign. */
  function IntegerDigits(s: string): string {
    var x := IntegerPart(s);
    if |Sign(s)| <= |x| then x[|Sign(s)|..] else []
  }

  /** What `toFixed` produces for a finite number below 1e21: an optional minus,
      at least one digit, and optionally a dot followed by digits. */
  predicate FixedShape(s: string) {
    && |IntegerDigits(s)| > 0 && AllDigits(IntegerDigits(s))
    && (IndexOf(s, '.') >= 0 ==> AllDigits(s[IndexOf(s, '.') + 1..]))
  }

  /** `x[1]` of `s.split(".")`: the text between the first dot and the next one, if
      there is a dot. */
  function Fraction(s: string): Option<string> {
    var i := IndexOf(s, '.');
    if i < 0 then None
    else
      var rest := s[i + 1..];
      var j := IndexOf(rest, '.');
      Some(if j < 0 then rest else rest[..j])
  }

  /** `x2`: the decimal mark and the fraction digits, or nothing without a dot. */
  function DecimalText(decimal: string, s: string): (r: string)
    ensures Fraction(s).None? ==> r == ""
    ensures Fraction(s).Some? ==> r == decimal + Fraction(s).value
  {
    match Fraction(s)
    case Some(f) => decimal + f
    case None => ""
  }

  /** The grouping loop of `formatNumber`: on the sign and digits of a number, the
      regular expression is replaced until it no longer matches, which leaves the
      sign followed by the digits grouped in threes. */
  method GroupDigits(sign: string, d: string, sep: string) returns (x1: string)
    requires sign == "" || sign == "-"
    requires |d| > 0 && AllDigits(d)
    requires sep != "" && NoDigits(sep) && '$' !in sep
    ensures x1 == sign + Group(d, sep)
  {
    var h := |d|;
    assert d[h..] == [];
    assert d[..h] == d;
    x1 := sign + d;
    assert x1 == Partial(sign, d, h, sep);
    while FirstMatch(x1, 0).Some?
      invariant h <= |d| && (|d| - h) % 3 == 0 && h >= 1
      invariant x1 == Partial(sign, d, h, sep)
      decreases h
    {
      PartialMatch(sign, d, h, sep);
      assert h >= 4;
      LeftmostIsFirst(x1, |sign|);
      PartialStep(sign, d, h, sep);
      ThreeMore(|d| - h);
      x1 := ReplaceMatch(x1, FirstMatch(x1, 0).value, sep);
      h := h - 3;
    }
    PartialMatch(sign, d, h, sep);
    LeftmostIsFirst(x1, |sign|);
    PartialDone(d, h, sep);
    assert x1 == sign + (d[..h] + SepGroups(d[h..], sep));
  }

  /** A match with none before it is the one `FirstMatch` finds. */
  lemma LeftmostIsFirst(s: string, p: nat)
    requires forall q :: q < p ==> !MatchAt(s, q)
    ensures MatchAt(s, p) ==> FirstMatch(s, 0) == Some(p)
  {
  }

  lemma ThreeMore(x: int)
    requires x % 3 == 0
    ensures (x + 3) % 3 == 0
  {
  }

  /** `x1` once the loop is done: the sign, then the integer digits, grouped in
      threes from the right when grouping is on. */
  function IntegerText(opts: Options, s: string): string {
    Sign(s) + (if opts.useGrouping then Group(IntegerDigits(s), opts.separator) else IntegerDigits(s))
  }

  /** `self.formatNumber` on the `toFixed` text `nStr`. */
  method FormatNumber(opts: Options, nStr: string) returns (out: string)
    requires Normalised(opts) && NoDigits(opts.separator) && '$' !in opts.separator
    requires FixedShape(nStr)
    ensures out == opts.prefix + IntegerText(opts, nStr) + DecimalText(opts.decimal, nStr) + opts.suffix
  {
    var x1 := IntegerPart(nStr);
    var x2 := DecimalText(opts.decimal, nStr);
    SplitShape(nStr);
    if opts.useGrouping {
      x1 := GroupDigits(Sign(nStr), IntegerDigits(nStr), opts.separator);
    }
    out := opts.prefix + x1 + x2 + opts.suffix;
  }

  /** The text before the first dot is the sign and the integer digits. */
  lemma SplitShape(s: string)
    requires FixedShape(s)
    ensures IntegerPart(s) == Sign(s) + IntegerDigits(s)
  {
    var x := IntegerPart(s);
    if Sign(s) == "-" {
      assert x[0] == '-';
      assert x == [x[0]] + x[1..];
    }
  }

  /** Example: a grouped figure with the defaults. */
  lemma GroupExample()
    ensures Group("1234567", ",") == "1,234,567"
  {
    assert "1234567"[..4] == "1234";
    assert "1234567"[4..] == "567";
    assert "1234"[..1] == "1";
    assert "1234"[1..] == "234";
  }
}
