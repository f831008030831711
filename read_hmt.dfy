/** The HMT333 probe reader: the calibration band chain, the numeric token
    search over the probe's reply line, and one poll of the probe over its
    serial line. Temperatures are integers in tenths of a degree Celsius. */
module ReadHmt {
  import opened Common

  /** The nine additive coefficients of the calibration certificate, in
      tenths of a degree, named after the band they correct. */
  datatype Corrections = Corrections(
    corr50: int, corr40: int, corr30: int, corr20: int, corr10: int,
    corr0: int, corrM10: int, corrM20: int, corrM30: int)

  /** Lower bounds of the first eight bands, highest band first (45, 35, ...,
      -25 degrees); band 8 is everything below the last one. */
  const THRESHOLDS: seq<int> := [450, 350, 250, 150, 50, -50, -150, -250]

  /** The coefficient of band b, 0 being the +50 band and 8 the -30 band. */
  function Coefficient(c: Corrections, b: nat): int
    requires b <= 8
  {
    [c.corr50, c.corr40, c.corr30, c.corr20, c.corr10, c.corr0, c.corrM10, c.corrM20, c.corrM30][b]
  }

  /** The first band, from band i on, whose threshold t meets: the reference
      reading of the threshold chain. */
  function FirstBandFrom(t: int, i: nat): (b: nat)
    requires i <= 8
    decreases 8 - i
    ensures i <= b <= 8
    ensures b < 8 ==> t >= THRESHOLDS[b]
    ensures forall j :: i <= j < b ==> t < THRESHOLDS[j]
  {
    if i == 8 then 8 else if t >= THRESHOLDS[i] then i else FirstBandFrom(t, i + 1)
  }

  function BandOf(t: int): nat {
    FirstBandFrom(t, 0)
  }

  /** read_hmt.apply_calibration: the if/elif chain, highest band first. */
  function ApplyCalibration(c: Corrections, t: int): (r: int)
    ensures r == t + Coefficient(c, BandOf(t))
  {
    if t >= 450 then t + c.corr50
    else if t >= 350 then t + c.corr40
    else if t >= 250 then t + c.corr30
    else if t >= 150 then t + c.corr20
    else if t >= 50 then t + c.corr10
    else if t >= -50 then t + c.corr0
    else if t >= -150 then t + c.corrM10
    else if t >= -250 then t + c.corrM20
    else t + c.corrM30
  }

  /** A value exactly on a threshold belongs to the band above it; one tenth
      below belongs to the next band down. */
  lemma BandTies(i: nat)
    requires i < 8
    ensures BandOf(THRESHOLDS[i]) == i
    ensures BandOf(THRESHOLDS[i] - 1) == i + 1
  {
  }

  /** 45.0 takes corr50, 44.9 corr40, -25.0 corrM20 and -25.1 corrM30. */
  lemma CalibrationAtBoundaries(c: Corrections)
    ensures ApplyCalibration(c, 450) == 450 + c.corr50
    ensures ApplyCalibration(c, 449) == 449 + c.corr40
    ensures ApplyCalibration(c, -250) == -250 + c.corrM20
    ensures ApplyCalibration(c, -251) == -251 + c.corrM30
  {
  }

  /** A warmer reading never selects a colder band. */
  lemma BandMonotone(t1: int, t2: int)
    requires t1 <= t2
    ensures BandOf(t2) <= BandOf(t1)
  {
  }

  // ---------------------------------------------------------------------
  // The token search of re.search(r"[-+]?\d*\.\d+|\d+", line)

  datatype Sign = NoSign | Plus | Minus

  /** A token of the pattern: a decimal ([-+]?\d*\.\d+, frac non-empty) or
      an integer (\d+, no sign, frac empty). */
  datatype Token = Token(sign: Sign, whole: string, frac: string)

  predicate WellFormed(k: Token) {
    && AllDigits(k.whole)
    && AllDigits(k.frac)
    && (k.frac == [] ==> k.sign == NoSign && k.whole != [])
  }

  function SignText(s: Sign): string {
    match s
    case NoSign => ""
    case Plus => "+"
    case Minus => "-"
  }

  /** The characters a token stands for. */
  function TokenText(k: Token): string {
    if k.frac == [] then k.whole else SignText(k.sign) + k.whole + "." + k.frac
  }

  /** A match: where it starts and ends in the line, and what it matched. */
  datatype Match = Match(start: nat, end: nat, token: Token)

  /** Length of the run of digits that starts at position i. */
  function DigitRun(s: string, i: nat): (n: nat)
    requires i <= |s|
    decreases |s| - i
    ensures i + n <= |s|
    ensures forall k :: i <= k < i + n ==> IsDigit(s[k])
    ensures i + n < |s| ==> !IsDigit(s[i + n])
  {
    if i < |s| && IsDigit(s[i]) then 1 + DigitRun(s, i + 1) else 0
  }

  /** \d*\.\d+ at position i, as its digits before and after the point: the
      digits before the point are taken greedily, and giving some back never
      helps, since a digit is not a point. */
  function DecimalAt(s: string, i: nat): (r: Option<Token>)
    requires i <= |s|
    ensures r.Some? ==> r.value.sign == NoSign && WellFormed(r.value) && r.value.frac != []
    ensures r.Some? ==> i + |r.value.whole| + 1 + |r.value.frac| <= |s|
  {
    var p := i + DigitRun(s, i);
    if p + 1 < |s| && s[p] == '.' && IsDigit(s[p + 1]) then
      var q := p + 1 + DigitRun(s, p + 1);
      DigitSlice(s, i, p);
      DigitSlice(s, p + 1, q);
      Some(Token(NoSign, s[i..p], s[p + 1..q]))
    else
      None
  }

  /** A decimal token stands on exactly its digits, a point and its digits. */
  lemma DecimalAtStands(s: string, i: nat)
    requires i <= |s| && DecimalAt(s, i).Some?
    ensures var d := DecimalAt(s, i).value;
      s[i..i + |d.whole| + 1 + |d.frac|] == d.whole + "." + d.frac
  {
    var p := i + DigitRun(s, i);
    var q := p + 1 + DigitRun(s, p + 1);
    assert s[i..q] == s[i..p] + "." + s[p + 1..q];
  }

  /** A stretch of digits in the line, cut out, is a string of digits. */
  lemma DigitSlice(s: string, a: nat, b: nat)
    requires a <= b <= |s| && forall k :: a <= k < b ==> IsDigit(s[k])
    ensures AllDigits(s[a..b])
  {
    forall k | 0 <= k < b - a
      ensures IsDigit(s[a..b][k])
    {
      assert s[a..b][k] == s[a + k];
    }
  }

  /** The characters a decimal token takes in the line. */
  function Width(k: Token): nat {
    |SignText(k.sign)| + |k.whole| + (if k.frac == [] then 0 else 1 + |k.frac|)
  }

  /** The match the pattern makes when tried at position i, alternatives in
      their order of preference: a signed decimal, an unsigned decimal, an
      integer. */
  function MatchAt(s: string, i: nat): (r: Option<Match>)
    requires i < |s|
    ensures r.Some? ==> r.value.start == i && r.value.end == i + Width(r.value.token) <= |s|
    ensures r.Some? ==> WellFormed(r.value.token) && i < r.value.end
  {
    var signed := (s[i] == '-' || s[i] == '+') && DecimalAt(s, i + 1).Some?;
    if signed then
      var d := DecimalAt(s, i + 1).value;
      var k := d.(sign := if s[i] == '-' then Minus else Plus);
      Some(Match(i, i + Width(k), k))
    else if DecimalAt(s, i).Some? then
      var k := DecimalAt(s, i).value;
      Some(Match(i, i + Width(k), k))
    else if IsDigit(s[i]) then
      var n := DigitRun(s, i);
      Some(Match(i, i + n, Token(NoSign, s[i..i + n], [])))
    else
      None
  }

  /** The decimal alternative is greedy: it is found exactly when the digit
      run at i is followed by a point and a digit, its whole part is that
      entire run, and its fraction is not followed by another digit. */
  lemma DecimalAtGreedy(s: string, i: nat)
    requires i <= |s|
    ensures var r := DecimalAt(s, i);
      && (r.Some? <==> var p := i + DigitRun(s, i); p + 1 < |s| && s[p] == '.' && IsDigit(s[p + 1]))
      && (r.Some? ==> |r.value.whole| == DigitRun(s, i))
      && (r.Some? ==> var e := i + |r.value.whole| + 1 + |r.value.frac|; e < |s| ==> !IsDigit(s[e]))
  {
  }

  /** The pattern matches at i exactly when a digit, an unsigned decimal or a
      signed decimal starts there. */
  lemma MatchAtFound(s: string, i: nat)
    requires i < |s|
    ensures MatchAt(s, i).Some? <==> IsDigit(s[i]) || DecimalAt(s, i).Some?
                                     || ((s[i] == '-' || s[i] == '+') && DecimalAt(s, i + 1).Some?)
  {
  }

  /** A sign is taken exactly when a decimal follows it, and an integer is
      matched only where no decimal starts. */
  lemma MatchAtPreference(s: string, i: nat)
    requires i < |s| && MatchAt(s, i).Some?
    ensures var k := MatchAt(s, i).value.token;
      && (k.sign != NoSign <==> (s[i] == '-' || s[i] == '+') && DecimalAt(s, i + 1).Some?)
      && (k.frac == [] ==> DecimalAt(s, i).None?)
  {
  }

  /** A match is never followed by a digit: it takes every digit it can. */
  lemma MatchAtMaximal(s: string, i: nat)
    requires i < |s| && MatchAt(s, i).Some?
    ensures var e := MatchAt(s, i).value.end; e < |s| ==> !IsDigit(s[e])
  {
    if (s[i] == '-' || s[i] == '+') && DecimalAt(s, i + 1).Some? {
      MaximalSigned(s, i);
    } else if DecimalAt(s, i).Some? {
      MaximalUnsigned(s, i);
    } else {
      MaximalInteger(s, i);
    }
  }

  lemma MaximalSigned(s: string, i: nat)
    requires i < |s| && (s[i] == '-' || s[i] == '+') && DecimalAt(s, i + 1).Some?
    ensures var e := MatchAt(s, i).value.end; e < |s| ==> !IsDigit(s[e])
  {
    DecimalAtGreedy(s, i + 1);
  }

  lemma MaximalUnsigned(s: string, i: nat)
    requires i < |s| && !((s[i] == '-' || s[i] == '+') && DecimalAt(s, i + 1).Some?)
    requires DecimalAt(s, i).Some?
    ensures var e := MatchAt(s, i).value.end; e < |s| ==> !IsDigit(s[e])
  {
    DecimalAtGreedy(s, i);
  }

  lemma MaximalInteger(s: string, i: nat)
    requires i < |s| && !((s[i] == '-' || s[i] == '+') && DecimalAt(s, i + 1).Some?)
    requires DecimalAt(s, i).None? && IsDigit(s[i])
    ensures var e := MatchAt(s, i).value.end; e < |s| ==> !IsDigit(s[e])
  {
  }

  /** What a match stands on in the line is exactly the text of its token. */
  lemma MatchText(s: string, i: nat)
    requires i < |s| && MatchAt(s, i).Some?
    ensures s[i..MatchAt(s, i).value.end] == TokenText(MatchAt(s, i).value.token)
  {
    if (s[i] == '-' || s[i] == '+') && DecimalAt(s, i + 1).Some? {
      TextSigned(s, i);
    } else if DecimalAt(s, i).Some? {
      TextUnsigned(s, i);
    } else {
      TextInteger(s, i);
    }
  }

  lemma TextSigned(s: string, i: nat)
    requires i < |s| && (s[i] == '-' || s[i] == '+') && DecimalAt(s, i + 1).Some?
    ensures s[i..MatchAt(s, i).value.end] == TokenText(MatchAt(s, i).value.token)
  {
    var d := DecimalAt(s, i + 1).value;
    SignedText(s, i, d);
    assert SignText(if s[i] == '-' then Minus else Plus) == [s[i]];
  }

  lemma TextUnsigned(s: string, i: nat)
    requires i < |s| && !((s[i] == '-' || s[i] == '+') && DecimalAt(s, i + 1).Some?)
    requires DecimalAt(s, i).Some?
    ensures s[i..MatchAt(s, i).value.end] == TokenText(MatchAt(s, i).value.token)
  {
    DecimalAtStands(s, i);
    var d := DecimalAt(s, i).value;
    assert TokenText(d) == d.whole + "." + d.frac;
  }

  lemma TextInteger(s: string, i: nat)
    requires i < |s| && !((s[i] == '-' || s[i] == '+') && DecimalAt(s, i + 1).Some?)
    requires DecimalAt(s, i).None? && IsDigit(s[i])
    ensures s[i..MatchAt(s, i).value.end] == TokenText(MatchAt(s, i).value.token)
  {
  }

  lemma SignedText(s: string, i: nat, d: Token)
    requires i < |s| && DecimalAt(s, i + 1) == Some(d)
    ensures s[i..i + 2 + |d.whole| + |d.frac|] == [s[i]] + d.whole + "." + d.frac
  {
    var e := i + 2 + |d.whole| + |d.frac|;
    DecimalAtStands(s, i + 1);
    assert s[i + 1..e] == d.whole + "." + d.frac;
    assert s[i..e] == [s[i]] + s[i + 1..e];
  }

  /** The leftmost match at or after position i. */
  function SearchFrom(s: string, i: nat): (r: Option<Match>)
    requires i <= |s|
    decreases |s| - i
    ensures r.Some? ==> i <= r.value.start < |s| && MatchAt(s, r.value.start) == r
    ensures forall j :: i <= j < (if r.Some? then r.value.start else |s|) ==> MatchAt(s, j).None?
  {
    if i == |s| then None
    else if MatchAt(s, i).Some? then MatchAt(s, i)
    else SearchFrom(s, i + 1)
  }

  /** re.search over the whole line. */
  function Search(s: string): Option<Match> {
    SearchFrom(s, 0)
  }

  /** round(float(token), 1) in tenths: exact for a token with at most one
      decimal; a longer one is rounded half away from zero on its second
      decimal digit. */
  function TokenTenths(k: Token): int
    requires WellFormed(k)
  {
    var tenths := if k.frac == [] then 0 else DigitValue(k.frac[0]);
    var up := if |k.frac| > 1 && DigitValue(k.frac[1]) >= 5 then 1 else 0;
    var magnitude := DigitsValue(k.whole) * 10 + tenths + up;
    if k.sign == Minus then -magnitude else magnitude
  }

  // ---------------------------------------------------------------------
  // The reply a reading comes from, and the probe's own reply format

  /** What one readline on the probe's port gives: a line, nothing before the
      5 s timeout (readline returns None), or an OSError. */
  datatype Reply = Line(text: string) | Timeout | HwError

  /** The temperature one poll yields: the calibrated leftmost token of the
      line; None when the line has no token, and None after a timeout or an
      OSError (the retry those make does not change the result). */
  function ReadingOf(c: Corrections, reply: Reply): Option<int> {
    match reply
    case Line(s) =>
      (match Search(s)
       case Some(m) => Some(ApplyCalibration(c, TokenTenths(m.token)))
       case None => None)
    case Timeout => None
    case HwError => None
  }

  /** A run of digits followed by a non-digit, or by the end, is measured
      exactly. */
  lemma {:induction false} DigitRunOver(s: string, i: nat, w: string)
    requires i + |w| <= |s| && s[i..i + |w|] == w && AllDigits(w)
    requires i + |w| < |s| ==> !IsDigit(s[i + |w|])
    ensures DigitRun(s, i) == |w|
    decreases |w|
  {
    if w != [] {
      assert s[i + 1..i + 1 + |w[1..]|] == w[1..];
      DigitRunOver(s, i + 1, w[1..]);
    }
  }

  /** Digits, a point and digits, followed by a non-digit or the end, are
      taken whole as the first alternative. */
  lemma DecimalAtText(s: string, i: nat, w: string, f: string)
    requires AllDigits(w) && AllDigits(f) && f != []
    requires i + |w| + 1 + |f| <= |s| && s[i..i + |w| + 1 + |f|] == w + "." + f
    requires i + |w| + 1 + |f| < |s| ==> !IsDigit(s[i + |w| + 1 + |f|])
    ensures DecimalAt(s, i) == Some(Token(NoSign, w, f))
  {
    var p := i + |w|;
    var q := p + 1 + |f|;
    PointSplit(s[i..q], w, f);
    assert s[i..p] == s[i..q][..|w|];
    assert s[p] == s[i..q][|w|];
    assert s[p + 1..q] == s[i..q][|w| + 1..];
    DigitRunOver(s, i, w);
    DigitRunOver(s, p + 1, f);
    assert s[p + 1] == f[0];
    DecimalAtParts(s, i, p, q);
  }

  /** DecimalAt from the two digit runs around the point. */
  lemma DecimalAtParts(s: string, i: nat, p: nat, q: nat)
    requires i <= p && p + 1 < q <= |s| && s[p] == '.' && IsDigit(s[p + 1])
    requires DigitRun(s, i) == p - i && DigitRun(s, p + 1) == q - p - 1
    ensures DecimalAt(s, i) == Some(Token(NoSign, s[i..p], s[p + 1..q]))
  {
  }

  /** The parts of digits, a point and digits. */
  lemma PointSplit(x: string, w: string, f: string)
    requires x == w + "." + f
    ensures x[..|w|] == w && x[|w|] == '.' && x[|w| + 1..] == f
  {
  }

  /** No match starts in the "T= " that opens the probe's reply. */
  lemma ReplyPrefixNoMatch(s: string)
    requires |s| > 3 && s[..3] == "T= "
    ensures MatchAt(s, 0).None? && MatchAt(s, 1).None? && MatchAt(s, 2).None?
    ensures SearchFrom(s, 0) == SearchFrom(s, 3)
  {
    assert s[0] == 'T' && s[1] == '=' && s[2] == ' ';
    SkipOther(s, 0);
    SkipOther(s, 1);
    SkipOther(s, 2);
  }

  /** No match starts at a character that is neither a digit, a sign nor a
      point, and the search passes over it. */
  lemma SkipOther(s: string, i: nat)
    requires i < |s| && !IsDigit(s[i]) && s[i] != '-' && s[i] != '+' && s[i] != '.'
    ensures MatchAt(s, i).None? && SearchFrom(s, i) == SearchFrom(s, i + 1)
  {
    assert DigitRun(s, i) == 0;
  }

  /** Where the parts of a reply line stand. */
  lemma ReplyLineShape(s: string, neg: bool, w: string, f: string)
    requires s == "T= " + (if neg then "-" else "") + w + "." + f + " 'C"
    ensures var i := if neg then 4 else 3;
      && |s| > i + |w| + 1 + |f| && s[..3] == "T= " && (neg ==> s[3] == '-')
      && s[i..i + |w| + 1 + |f|] == w + "." + f && s[i + |w| + 1 + |f|] == ' '
  {
    assert s == ("T= " + (if neg then "-" else "")) + (w + "." + f) + " 'C";
  }

  /** The reply line "T= " + sign + digits + "." + digits + " 'C": nothing
      before the number matches, and the number is matched whole. */
  lemma SearchReplyLine(s: string, neg: bool, w: string, f: string)
    requires AllDigits(w) && w != [] && AllDigits(f) && f != []
    requires s == "T= " + (if neg then "-" else "") + w + "." + f + " 'C"
    ensures Search(s) == Some(Match(3, (if neg then 4 else 3) + |w| + 1 + |f|,
                                    Token(if neg then Minus else NoSign, w, f)))
  {
    ReplyLineShape(s, neg, w, f);
    SearchShapedLine(s, neg, w, f);
  }

  /** The same, from where the parts of the line stand. */
  lemma SearchShapedLine(s: string, neg: bool, w: string, f: string)
    requires AllDigits(w) && w != [] && AllDigits(f) && f != []
    requires var i := if neg then 4 else 3;
      && |s| > i + |w| + 1 + |f| && s[..3] == "T= " && (neg ==> s[3] == '-')
      && s[i..i + |w| + 1 + |f|] == w + "." + f && s[i + |w| + 1 + |f|] == ' '
    ensures Search(s) == Some(Match(3, (if neg then 4 else 3) + |w| + 1 + |f|,
                                    Token(if neg then Minus else NoSign, w, f)))
  {
    var i := if neg then 4 else 3;
    DecimalAtText(s, i, w, f);
    if !neg {
      assert s[3] == (w + "." + f)[0];
    }
    SearchNumberAfterPrefix(s, neg, Token(NoSign, w, f));
  }

  /** After "T= ", a decimal (with a '-' before it when neg) is the leftmost
      match. */
  lemma SearchNumberAfterPrefix(s: string, neg: bool, d: Token)
    requires |s| > 4 && s[..3] == "T= "
    requires if neg then s[3] == '-' else IsDigit(s[3])
    requires DecimalAt(s, if neg then 4 else 3) == Some(d)
    ensures Search(s) == Some(Match(3, 3 + (if neg then 2 else 1) + |d.whole| + |d.frac|,
                                    if neg then d.(sign := Minus) else d))
  {
    ReplyPrefixNoMatch(s);
    if neg {
      MatchAtMinus(s, 3, d);
    } else {
      MatchAtDecimal(s, 3, d);
    }
    SearchFound(s, 3);
  }

  /** The search stops at a position where something matches. */
  lemma SearchFound(s: string, i: nat)
    requires i < |s| && MatchAt(s, i).Some?
    ensures SearchFrom(s, i) == MatchAt(s, i)
  {
  }

  /** A '-' followed by a decimal starts a negative decimal token. */
  lemma MatchAtMinus(s: string, i: nat, d: Token)
    requires i < |s| && s[i] == '-' && DecimalAt(s, i + 1) == Some(d)
    ensures MatchAt(s, i) == Some(Match(i, i + 2 + |d.whole| + |d.frac|, d.(sign := Minus)))
  {
  }

  /** A decimal that starts with a digit is matched as an unsigned decimal. */
  lemma MatchAtDecimal(s: string, i: nat, d: Token)
    requires i < |s| && IsDigit(s[i]) && DecimalAt(s, i) == Some(d)
    ensures MatchAt(s, i) == Some(Match(i, i + 1 + |d.whole| + |d.frac|, d))
  {
  }

  /** The probe's reply for a reading of t tenths: "T= <t with one decimal> 'C". */
  function ProbeLine(t: int): string {
    var m: nat := if t < 0 then -t else t;
    "T= " + (if t < 0 then "-" else "") + NatToString(m / 10) + "." + [DigitChar(m % 10)] + " 'C"
  }

  /** Every reading the probe can report in its own format is read back
      exactly, then calibrated. */
  lemma ReadProbeLine(c: Corrections, t: int)
    ensures ReadingOf(c, Line(ProbeLine(t))) == Some(ApplyCalibration(c, t))
  {
    var m: nat := if t < 0 then -t else t;
    var w, f := NatToString(m / 10), [DigitChar(m % 10)];
    SearchReplyLine(ProbeLine(t), t < 0, w, f);
    ProbeTokenTenths(t);
  }

  /** The token of the probe's format for t denotes t tenths. */
  lemma ProbeTokenTenths(t: int)
    ensures var m: nat := if t < 0 then -t else t;
      TokenTenths(Token(if t < 0 then Minus else NoSign, NatToString(m / 10), [DigitChar(m % 10)])) == t
  {
    var m: nat := if t < 0 then -t else t;
    NatToStringRoundTrip(m / 10);
  }

  /** The probe's example reply "T= 19.5 'C" reads as 19.5, before calibration. */
  lemma SearchProbeExample()
    ensures Search("T= 19.5 'C") == Some(Match(3, 7, Token(NoSign, "19", "5")))
  {
    SearchReplyLine("T= 19.5 'C", false, "19", "5");
  }

  /** A signed decimal keeps its sign: "T= -3.5 'C" reads as -3.5. */
  lemma SearchSignedDecimalExample()
    ensures Search("T= -3.5 'C") == Some(Match(3, 7, Token(Minus, "3", "5")))
  {
    SearchReplyLine("T= -3.5 'C", true, "3", "5");
  }

  /** A sign is only taken with a decimal point: "-5" reads as 5. */
  lemma SearchSignedIntegerExample()
    ensures Search("-5") == Some(Match(1, 2, Token(NoSign, "5", "")))
  {
    var s := "-5";
    assert DigitRun(s, 2) == 0;
    assert DigitRun(s, 1) == 1;
    assert DecimalAt(s, 1).None?;
    assert MatchAt(s, 0).None?;
    assert s[1..2] == "5";
  }

  /** A line without a number, such as an error message, yields None. */
  lemma SearchNoNumberExample(c: Corrections)
    ensures ReadingOf(c, Line("Err")) == None
  {
    var s := "Err";
    assert MatchAt(s, 0).None? && MatchAt(s, 1).None? && MatchAt(s, 2).None?;
  }

  /** A line yields no reading exactly when it holds no digit: every digit
      starts a match, and every match holds a digit. */
  lemma NoDigitNoReading(c: Corrections, s: string)
    ensures ReadingOf(c, Line(s)).None? <==> forall k :: 0 <= k < |s| ==> !IsDigit(s[k])
  {
    if forall k :: 0 <= k < |s| ==> !IsDigit(s[k]) {
      forall j | 0 <= j < |s|
        ensures MatchAt(s, j).None?
      {
        NoDigitNoMatch(s, j);
      }
    } else {
      var k :| 0 <= k < |s| && IsDigit(s[k]);
      MatchAtFound(s, k);
    }
  }

  /** Where the line holds no digit, no match starts. */
  lemma NoDigitNoMatch(s: string, j: nat)
    requires j < |s| && forall k :: 0 <= k < |s| ==> !IsDigit(s[k])
    ensures MatchAt(s, j).None?
  {
    assert DigitRun(s, j) == 0;
    if j + 1 < |s| {
      assert DigitRun(s, j + 1) == 0;
    }
  }

  // ---------------------------------------------------------------------
  // get_hmt_temp: the probe and its serial line

  /** The poll command written before every read. */
  const POLL: string := "send\r\n"

  function Polls(n: nat): (p: seq<string>)
    ensures |p| == n && forall k :: 0 <= k < n ==> p[k] == POLL
  {
    seq(n, _ => POLL)
  }

  /** How many replies one get_hmt_temp call reads: up to and including the
      first line, since every timeout or OSError makes another call. */
  function Consumed(replies: seq<Reply>): (n: nat)
    ensures n <= |replies|
    ensures replies != [] ==> n >= 1
    ensures forall k :: 0 <= k < n - 1 ==> !replies[k].Line?
    ensures n < |replies| ==> n >= 1 && replies[n - 1].Line?
  {
    if replies == [] then 0
    else if replies[0].Line? then 1
    else 1 + Consumed(replies[1..])
  }

  /** The probe on its serial port: the replies it will give to the coming
      polls, and what has been written to it. */
  class Hmt {
    const corrections: Corrections
    var replies: seq<Reply>
    var written: seq<string>

    constructor (corrections: Corrections, replies: seq<Reply>)
      ensures this.corrections == corrections && this.replies == replies && written == []
    {
      this.corrections := corrections;
      this.replies := replies;
      written := [];
    }

    /** read_hmt.get_hmt_temp: write the poll command, read one reply and
        take the calibrated token from it. A timeout or an OSError makes a
        recursive call whose result is dropped, so the call returns None. */
    method GetTemp() returns (temp: Option<int>)
      modifies this
      decreases |replies|
      ensures temp == (if old(replies) == [] then None else ReadingOf(corrections, old(replies)[0]))
      ensures replies == old(replies)[Consumed(old(replies))..]
      ensures written == old(written) + Polls(Consumed(old(replies)))
    {
      temp := None;
      if replies == [] {
        return;
      }
      written := written + [POLL];
      var reply := replies[0];
      replies := replies[1..];
      match reply
      case Line(s) =>
        var m := Search(s);
        if m.Some? {
          temp := Some(ApplyCalibration(corrections, TokenTenths(m.value.token)));
        }
      case Timeout =>
        var _ := GetTemp();
      case HwError =>
        var _ := GetTemp();
    }
  }
}
