/**
 * PortManager: the IP text classifier (GetFamily), the family dispatch of
 * NormalizeIp, the port-scanning Bind, the fixed-port Bind and Unbind.
 *
 * The classifier is a character loop over a C string; it is paired with a
 * declarative definition, FamilyOf, that splits the text into leading spaces,
 * a body of digits and dots, and what follows, and judges the body group by
 * group. The scanning Bind is a bounded loop over a wrapping port range whose
 * bind outcomes come from an oracle, one probe per attempt.
 */
module PortManager {
  import opened Uv

  const PortRangeStart: int := 52000
  const PortRangeEnd: int := 59999
  const BindAttempts: nat := 100

  /** The value GetFamily returns for a rejected text (`return false`). */
  const Rejected: int := 0
  /** The value GetFamily returns when it accepts trailing spaces (`return true`): neither family. */
  const TrailingSpacesAccepted: int := 1

  // ---------------------------------------------------------------------------
  // The declarative classifier
  // ---------------------------------------------------------------------------

  predicate IsDigit(c: char) { '0' <= c <= '9' }

  /** A character the classifier's main loop consumes: a digit or a dot. */
  predicate InBody(c: char) { IsDigit(c) || c == '.' }

  predicate AllDigits(g: string) { forall i :: 0 <= i < |g| ==> IsDigit(g[i]) }

  function DigitValue(c: char): int { c as int - '0' as int }

  /** What a C string view of `s` shows: everything before the first NUL. */
  function CText(s: string): (t: string)
    ensures |t| <= |s| && t == s[..|t|]
    ensures forall i :: 0 <= i < |t| ==> t[i] != '\0'
    ensures |t| == |s| || s[|t|] == '\0'
  {
    if s == [] || s[0] == '\0' then [] else [s[0]] + CText(s[1..])
  }

  /** The number of spaces `t` starts with. */
  function LeadingSpaces(t: string): (n: nat)
    ensures n <= |t|
    ensures forall i :: 0 <= i < n ==> t[i] == ' '
    ensures n == |t| || t[n] != ' '
  {
    if t != [] && t[0] == ' ' then 1 + LeadingSpaces(t[1..]) else 0
  }

  /** The length of the longest prefix of `u` made of digits and dots. */
  function BodyLength(u: string): (n: nat)
    ensures n <= |u|
    ensures forall i :: 0 <= i < n ==> InBody(u[i])
    ensures n == |u| || !InBody(u[n])
  {
    if u != [] && InBody(u[0]) then 1 + BodyLength(u[1..]) else 0
  }

  /** The decimal value of a digit string. */
  function Value(g: string): int
    decreases |g|
  {
    if g == [] then 0 else 10 * Value(g[..|g| - 1]) + DigitValue(g[|g| - 1])
  }

  /**
   * A group of digits the classifier lets through: its value is at most 255
   * and it does not start with two zeros. A lone "0" and "01" are good groups.
   */
  predicate GoodGroup(g: string)
  {
    AllDigits(g) && Value(g) <= 255 && !(|g| >= 2 && g[0] == '0' && g[1] == '0')
  }

  /** The groups of `b` between its dots, in order; a text with n dots has n + 1 groups. */
  function Split(b: string): (gs: seq<string>)
    ensures |gs| >= 1
    decreases |b|
  {
    if b == [] then [[]]
    else
      var init := Split(b[..|b| - 1]);
      if b[|b| - 1] == '.' then init + [[]]
      else init[..|init| - 1] + [init[|init| - 1] + [b[|b| - 1]]]
  }

  /** Glues groups back together with dots between them. */
  function Join(gs: seq<string>): string
    requires |gs| >= 1
  {
    if |gs| == 1 then gs[0] else Join(gs[..|gs| - 1]) + ['.'] + gs[|gs| - 1]
  }

  /** The number of dots in `b`. */
  function Dots(b: string): nat { multiset(b)['.'] }

  /**
   * A body the classifier accepts: every dot has a digit since the start or
   * the previous dot, and every group is good. The last group may be empty.
   */
  predicate WellFormed(b: string)
  {
    var gs := Split(b);
    (forall j :: 0 <= j < |gs| - 1 ==> gs[j] != []) &&
    (forall j :: 0 <= j < |gs| ==> GoodGroup(gs[j]))
  }

  /**
   * The classifier's verdict. After the leading spaces comes the body; a bad
   * body is rejected; a body that ends the text gives AF_INET with exactly 3
   * dots (counted in 16 bits) and AF_INET6 otherwise; a body followed by a
   * space after 3 dots gives 1 when only spaces follow; anything else is
   * rejected.
   */
  function FamilyOf(ip: string): (r: int)
    ensures r in {Rejected, TrailingSpacesAccepted, AF_INET, AF_INET6}
  {
    Verdict(Rest(ip))
  }

  /**
   * The verdict on the text that follows the leading spaces. A family is only
   * ever given to a text made wholly of digits and dots, and trailing spaces
   * are only ever accepted after a body that ends in a space.
   */
  function Verdict(u: string): (r: int)
    ensures r in {Rejected, TrailingSpacesAccepted, AF_INET, AF_INET6}
    ensures IsInetFamily(r) ==> BodyLength(u) == |u|
    ensures r == TrailingSpacesAccepted ==> BodyLength(u) < |u| && u[|u| - 1] == ' '
  {
    var k := BodyLength(u);
    var b := u[..k];
    if !WellFormed(b) then Rejected
    else if k == |u| then (if Dots(b) % 0x1_0000 == 3 then AF_INET else AF_INET6)
    else if u[k] == ' ' && Dots(b) % 0x1_0000 == 3 && (forall i :: k <= i < |u| ==> u[i] == ' ')
    then TrailingSpacesAccepted
    else Rejected
  }

  /** The text after the leading spaces, up to the first NUL. */
  function Rest(ip: string): string
  {
    var t := CText(ip);
    t[LeadingSpaces(t)..]
  }

  predicate IsInetFamily(f: int) { f == AF_INET || f == AF_INET6 }

  // ---------------------------------------------------------------------------
  // Lemmas about groups and the splitter
  // ---------------------------------------------------------------------------

  lemma SplitSnoc(p: string, c: char)
    ensures Split(p + [c]) ==
      (if c == '.' then Split(p) + [[]]
       else Split(p)[..|Split(p)| - 1] + [Split(p)[|Split(p)| - 1] + [c]])
  {
    assert (p + [c])[..|p|] == p;
  }

  lemma JoinSnoc(gs: seq<string>, g: string)
    requires |gs| >= 1
    ensures Join(gs + [g]) == Join(gs) + ['.'] + g
  {
    assert (gs + [g])[..|gs|] == gs;
  }

  /** Extending the last group extends the glued text by the same character. */
  lemma JoinExtendLast(gs: seq<string>, c: char)
    requires |gs| >= 1
    ensures Join(gs[..|gs| - 1] + [gs[|gs| - 1] + [c]]) == Join(gs) + [c]
  {
    var n := |gs|;
    var init, last := gs[..n - 1], gs[n - 1];
    var gs' := init + [last + [c]];
    if n == 1 {
      assert gs' == [last + [c]];
      assert gs == [last];
    } else {
      assert Join(gs) == Join(init) + ['.'] + last;
      JoinSnoc(init, last + [c]);
      assert Join(init) + ['.'] + (last + [c]) == Join(init) + ['.'] + last + [c];
    }
  }

  /** The splitter is a true split: gluing the groups back together gives the text. */
  lemma {:induction false} SplitJoin(b: string)
    ensures Join(Split(b)) == b
    decreases |b|
  {
    if b != [] {
      var p, c := b[..|b| - 1], b[|b| - 1];
      assert b == p + [c];
      SplitJoin(p);
      SplitSnoc(p, c);
      if c == '.' {
        JoinSnoc(Split(p), []);
      } else {
        JoinExtendLast(Split(p), c);
      }
    }
  }

  /** No group holds a dot. */
  lemma {:induction false} SplitNoDots(b: string)
    ensures forall j :: 0 <= j < |Split(b)| ==> '.' !in Split(b)[j]
    decreases |b|
  {
    if b != [] {
      var p, c := b[..|b| - 1], b[|b| - 1];
      assert b == p + [c];
      SplitNoDots(p);
      SnocShape(p, c);
    }
  }

  /** A text with n dots splits into n + 1 groups. */
  lemma {:induction false} SplitCount(b: string)
    ensures |Split(b)| == Dots(b) + 1
    decreases |b|
  {
    if b != [] {
      var p, c := b[..|b| - 1], b[|b| - 1];
      assert b == p + [c];
      SplitCount(p);
      SplitSnoc(p, c);
      assert multiset(b) == multiset(p) + multiset{c};
    }
  }

  lemma {:induction false} ValueNonNegative(g: string)
    requires AllDigits(g)
    ensures Value(g) >= 0
    decreases |g|
  {
    if g != [] {
      ValueNonNegative(g[..|g| - 1]);
    }
  }

  /** A digit string has value 0 exactly when all its digits are zeros. */
  lemma {:induction false} ValueZero(g: string)
    requires AllDigits(g)
    ensures Value(g) == 0 <==> forall i :: 0 <= i < |g| ==> g[i] == '0'
    decreases |g|
  {
    if g != [] {
      var h := g[..|g| - 1];
      ValueZero(h);
      ValueNonNegative(h);
    }
  }

  lemma GoodGroupInit(g: string, c: char)
    requires GoodGroup(g + [c])
    ensures GoodGroup(g) && IsDigit(c)
    ensures Value(g + [c]) == 10 * Value(g) + DigitValue(c)
  {
    assert (g + [c])[..|g|] == g;
    assert IsDigit((g + [c])[|g|]);
    assert AllDigits(g) by {
      forall i | 0 <= i < |g| ensures IsDigit(g[i]) { assert g[i] == (g + [c])[i]; }
    }
    ValueNonNegative(g);
  }

  /**
   * One digit step of the loop: with `hasZero` telling whether the group so far
   * starts with '0', the loop's two tests on the new value decide exactly
   * whether the longer group is good, and the updated flag tells whether it
   * starts with '0'.
   */
  lemma GroupStep(g: string, c: char, hasZero: bool)
    requires GoodGroup(g) && IsDigit(c)
    requires hasZero == (g != [] && g[0] == '0')
    ensures Value(g + [c]) == 10 * Value(g) + DigitValue(c)
    ensures GoodGroup(g + [c]) <==> !(Value(g + [c]) == 0 && hasZero) && Value(g + [c]) <= 255
    ensures (hasZero || Value(g + [c]) == 0) <==> (g + [c])[0] == '0'
  {
    var g' := g + [c];
    assert g'[..|g|] == g;
    assert AllDigits(g');
    ValueNonNegative(g);
    ValueZero(g);
    ValueZero(g');
    if |g| >= 2 && g[0] == '0' {
      assert g[1] != '0';
    }
    if g != [] && g[0] != '0' {
      assert Value(g) != 0;
    }
  }

  function Pow10(n: nat): nat { if n == 0 then 1 else 10 * Pow10(n - 1) }

  lemma {:induction false} GoodGroupLowerBound(g: string)
    requires AllDigits(g) && |g| >= 2 && !(g[0] == '0' && g[1] == '0')
    ensures Value(g) >= Pow10(|g| - 2)
    decreases |g|
  {
    var h := g[..|g| - 1];
    if |g| == 2 {
      assert h[..0] == [];
      assert Value(h) == DigitValue(g[0]);
    } else {
      GoodGroupLowerBound(h);
    }
  }

  /** A good group has at most 4 digits ("0255"), so the 16-bit digit counter never wraps. */
  lemma GoodGroupShort(g: string)
    requires GoodGroup(g)
    ensures |g| <= 4
  {
    if |g| >= 2 {
      GoodGroupLowerBound(g);
    }
    if |g| >= 5 {
      PowMonotone(3, |g| - 2);
    }
  }

  lemma {:induction false} PowMonotone(m: nat, n: nat)
    requires m <= n
    ensures Pow10(m) <= Pow10(n)
    decreases n
  {
    if m < n {
      PowMonotone(m, n - 1);
    }
  }

  /** The group the text ends in (possibly empty). */
  function LastGroup(b: string): string
  {
    Split(b)[|Split(b)| - 1]
  }

  lemma WellFormedInit(p: string, c: char)
    requires WellFormed(p + [c])
    ensures WellFormed(p)
  {
    SnocShape(p, c);
    if c != '.' {
      assert GoodGroup(LastGroup(p + [c]));
      GoodGroupInit(LastGroup(p), c);
    }
  }

  /** Every prefix of a good body is good: the loop rejects at the first bad character. */
  lemma {:induction false} WellFormedPrefix(b: string, j: nat)
    requires WellFormed(b) && j <= |b|
    ensures WellFormed(b[..j])
    decreases |b|
  {
    if j < |b| {
      var p := b[..|b| - 1];
      assert b == p + [b[|b| - 1]];
      assert p[..j] == b[..j];
      WellFormedInit(p, b[|b| - 1]);
      WellFormedPrefix(p, j);
    } else {
      assert b[..j] == b;
    }
  }

  /** A good body is made of digits and dots only. */
  lemma {:induction false} WellFormedIsBody(b: string)
    requires WellFormed(b)
    ensures forall i :: 0 <= i < |b| ==> InBody(b[i])
    decreases |b|
  {
    if b != [] {
      var p, c := b[..|b| - 1], b[|b| - 1];
      assert b == p + [c];
      WellFormedInit(p, c);
      WellFormedIsBody(p);
      if c != '.' {
        SnocShape(p, c);
        var last := LastGroup(b);
        assert GoodGroup(last) && last == LastGroup(p) + [c];
        assert last[|last| - 1] == c;
      }
    }
  }

  // ---------------------------------------------------------------------------
  // What the classifier accepts and rejects
  // ---------------------------------------------------------------------------

  /** A text of digits and dots only is judged by its groups and its dot count. */
  lemma BodyFamily(b: string)
    requires forall i :: 0 <= i < |b| ==> InBody(b[i])
    ensures FamilyOf(b) ==
      if !WellFormed(b) then Rejected
      else if Dots(b) % 0x1_0000 == 3 then AF_INET
      else AF_INET6
  {
    var t := CText(b);
    assert t == b;
    var lead := LeadingSpaces(t);
    assert t[lead..] == b;
    var k := BodyLength(b);
    assert k == |b|;
    assert b[..k] == b;
  }

  /** A string without NUL is seen whole through its C string view. */
  lemma {:induction false} CTextWhole(s: string)
    requires forall i :: 0 <= i < |s| ==> s[i] != '\0'
    ensures CText(s) == s
    decreases |s|
  {
    if s != [] {
      CTextWhole(s[1..]);
    }
  }

  /** BodyLength counts exactly the digits and dots before the first other character. */
  lemma {:induction false} BodyLengthIs(u: string, n: nat)
    requires n <= |u| && (forall i :: 0 <= i < n ==> InBody(u[i]))
    requires n == |u| || !InBody(u[n])
    ensures BodyLength(u) == n
    decreases n
  {
    if n > 0 {
      BodyLengthIs(u[1..], n - 1);
    }
  }

  /**
   * Trailing spaces after a good body with 3 dots give 1, which is neither
   * family: such a text (say "1.1.1.1 ") is refused by NormalizeIp.
   */
  lemma TrailingSpacesGiveOne(b: string, tail: string)
    requires forall i :: 0 <= i < |b| ==> InBody(b[i])
    requires WellFormed(b) && Dots(b) % 0x1_0000 == 3
    requires tail != [] && forall i :: 0 <= i < |tail| ==> tail[i] == ' '
    ensures FamilyOf(b + tail) == TrailingSpacesAccepted
    ensures !IsInetFamily(FamilyOf(b + tail))
  {
    var s := b + tail;
    assert b != [];
    forall i | 0 <= i < |s| ensures s[i] != '\0' {
      if i < |b| { assert InBody(b[i]); } else { assert s[i] == tail[i - |b|]; }
    }
    CTextWhole(s);
    assert InBody(s[0]);
    LeadingSpacesIs(s, 0);
    assert Rest(s) == s;
    assert s[|b|] == ' ';
    BodyLengthIs(s, |b|);
    assert s[..|b|] == b;
  }

  /** Leading spaces never change the verdict. */
  lemma LeadingSpaceIgnored(ip: string)
    ensures FamilyOf([' '] + ip) == FamilyOf(ip)
  {
    var s := [' '] + ip;
    assert s[1..] == ip;
    assert CText(s) == [' '] + CText(ip);
    var t := CText(ip);
    assert ([' '] + t)[1..] == t;
    assert LeadingSpaces([' '] + t) == 1 + LeadingSpaces(t);
    assert ([' '] + t)[1 + LeadingSpaces(t)..] == t[LeadingSpaces(t)..];
  }

  /** Groups the classifier accepts: none but the last is empty, and every one is good. */
  predicate GoodGroups(gs: seq<string>)
  {
    (forall j :: 0 <= j < |gs| - 1 ==> gs[j] != []) && (forall j :: 0 <= j < |gs| ==> GoodGroup(gs[j]))
  }

  lemma SameMod(x: int, y: int)
    requires x == y
    ensures x % 0x1_0000 == y % 0x1_0000
  {
  }

  /** A text without dots is a single group. */
  lemma {:induction false} SplitDotFree(g: string)
    requires '.' !in g
    ensures Split(g) == [g]
    decreases |g|
  {
    if g != [] {
      var p, c := g[..|g| - 1], g[|g| - 1];
      assert g == p + [c];
      SplitDotFree(p);
      SplitSnoc(p, c);
    }
  }

  /** Appending a dot and a dot-free group adds exactly that group. */
  lemma {:induction false} SplitAppendGroup(x: string, g: string)
    requires '.' !in g
    ensures Split(x + ['.'] + g) == Split(x) + [g]
    decreases |g|
  {
    if g == [] {
      SplitSnoc(x, '.');
      assert x + ['.'] + g == x + ['.'];
    } else {
      var p, c := g[..|g| - 1], g[|g| - 1];
      assert g == p + [c];
      SplitAppendGroup(x, p);
      assert x + ['.'] + g == (x + ['.'] + p) + [c];
      SplitSnoc(x + ['.'] + p, c);
      var init := Split(x) + [p];
      assert init[..|init| - 1] == Split(x);
    }
  }

  /** Splitting undoes gluing, as long as no group holds a dot. */
  lemma {:induction false} SplitOfJoin(gs: seq<string>)
    requires |gs| >= 1 && forall j :: 0 <= j < |gs| ==> '.' !in gs[j]
    ensures Split(Join(gs)) == gs
    decreases |gs|
  {
    if |gs| == 1 {
      SplitDotFree(gs[0]);
    } else {
      var init := gs[..|gs| - 1];
      SplitOfJoin(init);
      SplitAppendGroup(Join(init), gs[|gs| - 1]);
      assert init + [gs[|gs| - 1]] == gs;
    }
  }

  lemma DigitsHaveNoDot(g: string)
    requires AllDigits(g)
    ensures '.' !in g
  {
    forall i | 0 <= i < |g| ensures g[i] != '.' {
      assert IsDigit(g[i]);
    }
  }

  /** Groups of digits glued with dots make a text of digits and dots only. */
  lemma {:induction false} JoinIsBody(gs: seq<string>)
    requires |gs| >= 1 && forall j :: 0 <= j < |gs| ==> AllDigits(gs[j])
    ensures forall i :: 0 <= i < |Join(gs)| ==> InBody(Join(gs)[i])
    decreases |gs|
  {
    if |gs| > 1 {
      JoinIsBody(gs[..|gs| - 1]);
    }
  }

  /**
   * The verdict on groups of digits glued with dots: rejected when a group
   * before the last is empty or a group is bad, otherwise AF_INET for four
   * groups and AF_INET6 for any other number.
   */
  lemma JoinedFamily(gs: seq<string>)
    requires |gs| >= 1 && forall j :: 0 <= j < |gs| ==> AllDigits(gs[j])
    ensures FamilyOf(Join(gs)) ==
      if !GoodGroups(gs) then Rejected
      else if (|gs| - 1) % 0x1_0000 == 3 then AF_INET
      else AF_INET6
  {
    JoinedShape(gs);
    BodyVerdict(Join(gs), GoodGroups(gs), |gs| - 1);
  }

  /** BodyFamily, with the goodness and the dot count of the body given. */
  lemma BodyVerdict(b: string, good: bool, dots: int)
    requires forall i :: 0 <= i < |b| ==> InBody(b[i])
    requires WellFormed(b) == good && Dots(b) == dots
    ensures FamilyOf(b) == if !good then Rejected else if dots % 0x1_0000 == 3 then AF_INET else AF_INET6
  {
    BodyFamily(b);
    SameMod(Dots(b), dots);
  }

  /** Glued digit groups are a body whose goodness and dot count are those of the groups. */
  lemma JoinedShape(gs: seq<string>)
    requires |gs| >= 1 && forall j :: 0 <= j < |gs| ==> AllDigits(gs[j])
    ensures forall i :: 0 <= i < |Join(gs)| ==> InBody(Join(gs)[i])
    ensures WellFormed(Join(gs)) == GoodGroups(gs)
    ensures Dots(Join(gs)) == |gs| - 1
  {
    var b := Join(gs);
    forall j | 0 <= j < |gs| ensures '.' !in gs[j] {
      DigitsHaveNoDot(gs[j]);
    }
    SplitOfJoin(gs);
    SplitCount(b);
    JoinIsBody(gs);
  }

  /** No text with a colon in it is classified: every IPv6 literal in colon notation is rejected. */
  lemma ColonRejected(ip: string, i: nat)
    requires i < |CText(ip)| && CText(ip)[i] == ':'
    ensures FamilyOf(ip) == Rejected
  {
    var t := CText(ip);
    var lead := LeadingSpaces(t);
    assert i >= lead;
    var u := t[lead..];
    assert u[i - lead] == ':';
    var k := BodyLength(u);
    assert k <= i - lead;
  }

  /**
   * A text classified as AF_INET or AF_INET6 holds nothing but spaces, digits
   * and dots before its first NUL: the empty text and dotted texts with other
   * than three dots are the ones called AF_INET6.
   */
  lemma ClassifiedTextIsDotted(ip: string)
    requires IsInetFamily(FamilyOf(ip))
    ensures forall i :: 0 <= i < |CText(ip)| ==> CText(ip)[i] == ' ' || InBody(CText(ip)[i])
  {
    var t := CText(ip);
    var lead := LeadingSpaces(t);
    var u := t[lead..];
    assert BodyLength(u) == |u|;
    forall i | 0 <= i < |t| ensures t[i] == ' ' || InBody(t[i]) {
      if i >= lead {
        assert t[i] == u[i - lead];
      }
    }
  }

  /** One group of a dotted quad: the rule dec-octet of RFC 3986 (section 3.2.2). */
  predicate DecOctet(g: string)
  {
    || (|g| == 1 && IsDigit(g[0]))
    || (|g| == 2 && '1' <= g[0] <= '9' && IsDigit(g[1]))
    || (|g| == 3 && g[0] == '1' && IsDigit(g[1]) && IsDigit(g[2]))
    || (|g| == 3 && g[0] == '2' && '0' <= g[1] <= '4' && IsDigit(g[2]))
    || (|g| == 3 && g[0] == '2' && g[1] == '5' && '0' <= g[2] <= '5')
  }

  /** The rule IPv4address of RFC 3986 (section 3.2.2): four dec-octets joined by dots. */
  predicate IsIPv4Address(s: string)
  {
    var gs := Split(s);
    |gs| == 4 && forall j :: 0 <= j < 4 ==> DecOctet(gs[j])
  }

  lemma ValueOfShort(g: string)
    requires AllDigits(g) && 1 <= |g| <= 3
    ensures |g| == 1 ==> Value(g) == DigitValue(g[0])
    ensures |g| == 2 ==> Value(g) == 10 * DigitValue(g[0]) + DigitValue(g[1])
    ensures |g| == 3 ==> Value(g) == 100 * DigitValue(g[0]) + 10 * DigitValue(g[1]) + DigitValue(g[2])
  {
    assert g[..|g| - 1][..0] == [];
    if |g| == 3 {
      assert g[..2][..1] == g[..1];
      assert g[..1][..0] == [];
    }
  }

  /**
   * How the classifier's groups differ from dec-octet: a dec-octet is exactly
   * a good group that is not empty and has no leading zero. The classifier
   * also takes "01" to "0255" and the empty group.
   */
  lemma DecOctetIsGoodGroup(g: string)
    ensures DecOctet(g) <==> GoodGroup(g) && g != [] && !(|g| >= 2 && g[0] == '0')
  {
    if GoodGroup(g) && g != [] && !(|g| >= 2 && g[0] == '0') {
      if |g| >= 4 {
        GoodGroupLowerBound(g);
        PowMonotone(2, |g| - 2);
        assert Pow10(2) == 100;
        var h := g[..|g| - 1];
        assert h[..|h| - 1] == g[..|g| - 2];
        // A leading non-zero digit followed by at least three more digits is at least 1000.
        LeadingDigitBound(g);
      }
      ValueOfShort(g);
    }
    if DecOctet(g) {
      assert AllDigits(g);
      ValueOfShort(g);
    }
  }

  lemma {:induction false} LeadingDigitBound(g: string)
    requires AllDigits(g) && |g| >= 1 && g[0] != '0'
    ensures Value(g) >= Pow10(|g| - 1)
    decreases |g|
  {
    var h := g[..|g| - 1];
    if |g| == 1 {
      assert h == [];
    } else {
      LeadingDigitBound(h);
      ValueNonNegative(h);
    }
  }

  /** Every RFC 3986 dotted quad is classified as AF_INET. */
  lemma IPv4AddressAccepted(s: string)
    requires IsIPv4Address(s)
    ensures FamilyOf(s) == AF_INET
  {
    var gs := Split(s);
    forall j | 0 <= j < 4 ensures GoodGroup(gs[j]) && gs[j] != [] {
      DecOctetIsGoodGroup(gs[j]);
    }
    assert WellFormed(s);
    WellFormedIsBody(s);
    SplitCount(s);
    BodyFamily(s);
  }

  // ---------------------------------------------------------------------------
  // GetFamily, the character loop
  // ---------------------------------------------------------------------------

  /**
   * What the loop knows after consuming `done`: the body so far is good, `s`
   * is the value of its last group, `digitNumber` that group's length,
   * `hasZero` whether it starts with '0', and `count` the 16-bit dot count.
   */
  ghost predicate LoopState(done: string, s: int, count: int, digitNumber: int, hasZero: bool)
  {
    var last := LastGroup(done);
    && WellFormed(done)
    && s == Value(last)
    && digitNumber == |last|
    && hasZero == (last != [] && last[0] == '0')
    && count == Dots(done) % 0x1_0000
  }

  lemma LoopStart()
    ensures LoopState([], 0, 0, 0, false)
  {
    assert Split([]) == [[]];
    assert GoodGroup([]);
  }

  /** Appending a character to a text: a dot opens a new group, anything else extends the last one. */
  lemma SnocShape(p: string, c: char)
    ensures c == '.' ==> |Split(p + [c])| == |Split(p)| + 1 && Split(p + [c])[|Split(p)|] == []
    ensures c == '.' ==> forall j :: 0 <= j < |Split(p)| ==> Split(p + [c])[j] == Split(p)[j]
    ensures c != '.' ==> |Split(p + [c])| == |Split(p)| && LastGroup(p + [c]) == LastGroup(p) + [c]
    ensures c != '.' ==> forall j :: 0 <= j < |Split(p)| - 1 ==> Split(p + [c])[j] == Split(p)[j]
    ensures Dots(p + [c]) == Dots(p) + (if c == '.' then 1 else 0)
  {
    SplitSnoc(p, c);
    assert multiset(p + [c]) == multiset(p) + multiset{c};
  }

  /** A dot: rejected when the current group is empty, otherwise a new empty group starts. */
  lemma DotReject(done: string, s: int, count: int, digitNumber: int, hasZero: bool)
    requires LoopState(done, s, count, digitNumber, hasZero) && digitNumber == 0
    ensures !WellFormed(done + ['.'])
  {
    SnocShape(done, '.');
    assert Split(done + ['.'])[|Split(done)| - 1] == [];
  }

  /** A dot after a digit: the dot count goes up by one (in 16 bits) and a new empty group starts. */
  lemma DotStep(done: string, c: char, s: int, count: int, digitNumber: int, hasZero: bool, count': int)
    requires LoopState(done, s, count, digitNumber, hasZero) && digitNumber != 0 && c == '.'
    requires count' == (count + 1) % 0x1_0000
    ensures LoopState(done + [c], 0, count', 0, false)
  {
    SnocShape(done, '.');
    assert GoodGroup([]);
  }

  lemma SmallMod(x: int)
    requires 0 <= x < 0x1_0000
    ensures x % 0x1_0000 == x
  {
  }

  /** Appending a digit to a good body only extends its last group. */
  lemma DigitSnoc(done: string, c: char)
    requires WellFormed(done) && IsDigit(c)
    ensures LastGroup(done + [c]) == LastGroup(done) + [c]
    ensures WellFormed(done + [c]) <==> GoodGroup(LastGroup(done) + [c])
    ensures Dots(done + [c]) == Dots(done)
  {
    SnocShape(done, c);
  }

  /**
   * A digit: the loop's two tests on the new 16-bit value reject exactly the
   * texts whose body goes bad here, and otherwise the state moves on.
   */
  lemma DigitStep(done: string, c: char, s: int, count: int, digitNumber: int, hasZero: bool,
                  s': int, digitNumber': int, hasZero': bool)
    requires LoopState(done, s, count, digitNumber, hasZero) && IsDigit(c)
    requires s' == (s * 10 + DigitValue(c)) % 0x1_0000
    requires digitNumber' == (digitNumber + 1) % 0x1_0000 && hasZero' == (hasZero || s' == 0)
    ensures WellFormed(done + [c]) <==> !(s' == 0 && hasZero) && s' <= 255
    ensures WellFormed(done + [c]) ==> LoopState(done + [c], s', count, digitNumber', hasZero')
  {
    var last := LastGroup(done);
    DigitSnoc(done, c);
    GroupDigit(last, c, s, digitNumber, hasZero, s', digitNumber', hasZero');
  }

  /** The digit step on the last group alone, with the loop's 16-bit counters. */
  lemma GroupDigit(last: string, c: char, s: int, digitNumber: int, hasZero: bool,
                   s': int, digitNumber': int, hasZero': bool)
    requires GoodGroup(last) && IsDigit(c)
    requires s == Value(last) && digitNumber == |last| && hasZero == (last != [] && last[0] == '0')
    requires s' == (s * 10 + DigitValue(c)) % 0x1_0000
    requires digitNumber' == (digitNumber + 1) % 0x1_0000 && hasZero' == (hasZero || s' == 0)
    ensures GoodGroup(last + [c]) <==> !(s' == 0 && hasZero) && s' <= 255
    ensures GoodGroup(last + [c]) ==>
      s' == Value(last + [c]) && digitNumber' == |last + [c]| && hasZero' == ((last + [c])[0] == '0')
  {
    GoodGroupShort(last);
    GroupStep(last, c, hasZero);
    ValueNonNegative(last);
    var v := s * 10 + DigitValue(c);
    assert 0 <= v < 0x1_0000;
    SmallMod(v);
    SmallMod(digitNumber + 1);
  }

  /** A bad prefix of the body decides the verdict, whatever follows. */
  lemma RejectPrefix(u: string, j: nat)
    requires j <= BodyLength(u) && !WellFormed(u[..j])
    ensures Verdict(u) == Rejected
  {
    var k := BodyLength(u);
    if WellFormed(u[..k]) {
      assert u[..k][..j] == u[..j];
      WellFormedPrefix(u[..k], j);
    }
  }

  /** Where the leading-space loop stops, measured on the whole string. */
  lemma SkipSpaces(ip: string, q: nat)
    requires q <= |ip| && (forall i :: 0 <= i < q ==> ip[i] == ' ')
    requires q == |ip| || ip[q] != ' '
    ensures q <= |CText(ip)| && q == LeadingSpaces(CText(ip))
    ensures |Rest(ip)| == |CText(ip)| - q
    ensures forall i :: 0 <= i < |Rest(ip)| ==> Rest(ip)[i] == ip[q + i]
  {
    var t := CText(ip);
    assert q <= |t|;
    LeadingSpacesIs(t, q);
  }

  /** LeadingSpaces counts exactly the spaces before the first other character. */
  lemma {:induction false} LeadingSpacesIs(t: string, n: nat)
    requires n <= |t| && (forall i :: 0 <= i < n ==> t[i] == ' ')
    requires n == |t| || t[n] != ' '
    ensures LeadingSpaces(t) == n
    decreases n
  {
    if n > 0 {
      LeadingSpacesIs(t[1..], n - 1);
    }
  }

  /**
   * The main loop of the classifier, from the first character after the
   * leading spaces (position `p0` of `ip`) to the end of the C string; `u` is
   * the text it walks over.
   */
  method ScanBody(ip: string, p0: nat, ghost u: string) returns (family: int)
    requires p0 + |u| <= |ip|
    requires forall i :: 0 <= i < |u| ==> ip[p0 + i] == u[i] && u[i] != '\0'
    requires p0 + |u| == |ip| || ip[p0 + |u|] == '\0'
    ensures family == Verdict(u)
  {
    ghost var k := BodyLength(u);
    ghost var j := 0;  // q - p0: how much of `u` the loop has consumed
    var q := p0;
    // unsigned short s, count, digitNumber; bool hasZero
    var s, count, digitNumber := 0, 0, 0;
    var hasZero := false;
    LoopStart();
    assert u[..0] == [];
    while q < |ip| && ip[q] != '\0'
      invariant q == p0 + j && j <= k
      invariant LoopState(u[..j], s, count, digitNumber, hasZero)
      decreases |ip| - q
    {
      EndOfText(ip, p0, u, q);
      var c := ip[q];
      TakeSnoc(u, j);
      if c == '.' {
        if digitNumber == 0 {
          DotReject(u[..j], s, count, digitNumber, hasZero);
          RejectPrefix(u, j + 1);
          return Rejected;
        }
        ghost var s0, count0, digitNumber0, hasZero0 := s, count, digitNumber, hasZero;
        s := 0;
        digitNumber := 0;
        count := (count + 1) % 0x1_0000;
        hasZero := false;
        DotStep(u[..j], c, s0, count0, digitNumber0, hasZero0, count);
      } else if c < '0' || c > '9' {
        assert j == k;
        if c == ' ' && count == 3 {
          var trailing := OnlySpacesFrom(ip, q, p0, u);
          return if trailing then TrailingSpacesAccepted else Rejected;
        }
        return Rejected;
      } else {
        ghost var s0, digitNumber0, hasZero0 := s, digitNumber, hasZero;
        s := (s * 10 + DigitValue(c)) % 0x1_0000;
        DigitStep(u[..j], c, s0, count, digitNumber0, hasZero0, s,
                  (digitNumber0 + 1) % 0x1_0000, hasZero0 || s == 0);
        if s == 0 {
          if hasZero {
            RejectPrefix(u, j + 1);
            return Rejected;
          }
          hasZero := true;
        }
        if s > 255 {
          RejectPrefix(u, j + 1);
          return Rejected;
        }
        digitNumber := (digitNumber + 1) % 0x1_0000;
      }
      q := q + 1;
      j := j + 1;
    }
    EndOfText(ip, p0, u, q);
    assert j == k == |u|;
    return if count == 3 then AF_INET else AF_INET6;
  }

  lemma TakeSnoc(u: string, j: nat)
    requires j < |u|
    ensures u[..j + 1] == u[..j] + [u[j]]
  {
  }

  /** Whether only spaces follow position `q` of `ip`, which is position `q - p0` of `u`. */
  method OnlySpacesFrom(ip: string, q: nat, p0: nat, ghost u: string) returns (b: bool)
    requires p0 <= q <= p0 + |u| <= |ip|
    requires forall i :: 0 <= i < |u| ==> ip[p0 + i] == u[i] && u[i] != '\0'
    requires p0 + |u| == |ip| || ip[p0 + |u|] == '\0'
    ensures b <==> forall i :: q - p0 <= i < |u| ==> u[i] == ' '
  {
    var qq := q;
    while qq < |ip| && ip[qq] == ' '
      invariant q <= qq <= p0 + |u|
      invariant forall i :: q - p0 <= i < qq - p0 ==> u[i] == ' '
    {
      EndOfText(ip, p0, u, qq);
      qq := qq + 1;
    }
    b := qq == |ip| || ip[qq] == '\0';
    EndOfText(ip, p0, u, qq);
  }

  /** Inside `u` the C string has no NUL, so the walk stops only at the end of `u`. */
  lemma EndOfText(ip: string, p0: nat, u: string, q: nat)
    requires p0 <= q && p0 + |u| <= |ip|
    requires forall i :: 0 <= i < |u| ==> ip[p0 + i] == u[i] && u[i] != '\0'
    ensures q < p0 + |u| ==> q < |ip| && ip[q] == u[q - p0] && ip[q] != '\0'
  {
    if q < p0 + |u| {
      assert ip[p0 + (q - p0)] == u[q - p0];
    }
  }

  /** The family of `ip` as the classifier computes it over the C string. */
  method GetFamily(ip: string) returns (family: int)
    ensures family == FamilyOf(ip)
  {
    var q := 0;
    while q < |ip| && ip[q] == ' '
      invariant 0 <= q <= |ip|
      invariant forall i :: 0 <= i < q ==> ip[i] == ' '
    {
      q := q + 1;
    }
    SkipSpaces(ip, q);
    family := ScanBody(ip, q, Rest(ip));
  }

  // ---------------------------------------------------------------------------
  // NormalizeIp and the address step shared by both Binds
  // ---------------------------------------------------------------------------

  /**
   * NormalizeIp. A text that classifies as neither family throws an
   * invalid-ip type error. Otherwise libuv parses it and prints it back;
   * `canonical` is what that round trip gives, None when one of the two calls
   * fails (which aborts). On success the caller's string becomes the printed form.
   */
  method NormalizeIp(ip: string, canonical: Option<string>) returns (r: Outcome<string>)
    ensures r.Threw? <==> !IsInetFamily(FamilyOf(ip))
    ensures r.Threw? ==> r.error == InvalidIp(ip)
    ensures r.Ok? <==> IsInetFamily(FamilyOf(ip)) && canonical.Some?
    ensures r.Ok? ==> r.value == canonical.value
    ensures r.Crashed? ==> r.fatal == AddressParseFailed
  {
    var family := GetFamily(ip);
    if family == AF_INET || family == AF_INET6 {
      if canonical.None? {
        return Crashed(AddressParseFailed);
      }
      return Ok(canonical.value);
    }
    return Threw(InvalidIp(ip));
  }

  /** The address a Bind binds to: the normalized text, and whether the bind is IPv6-only. */
  datatype Address = Address(ip: string, ipv6Only: bool)

  /** The text the caller's string holds after NormalizeIp. */
  function NormalizedText(ip: string, canonical: Option<string>): string
  {
    if IsInetFamily(FamilyOf(ip)) && canonical.Some? then canonical.value else ip
  }

  /**
   * What a Bind makes of its address before touching a socket: NormalizeIp,
   * then the family of the normalized text (neither family aborts), then the
   * family's own parse (`parseOk`, whose failure aborts).
   */
  function AddressFor(ip: string, canonical: Option<string>, parseOk: bool): (r: Outcome<Address>)
    ensures r.Threw? <==> !IsInetFamily(FamilyOf(ip))
    ensures r.Ok? ==> r.value.ip == NormalizedText(ip, canonical) && IsInetFamily(FamilyOf(r.value.ip))
    ensures r.Ok? ==> (r.value.ipv6Only <==> FamilyOf(r.value.ip) == AF_INET6)
  {
    if !IsInetFamily(FamilyOf(ip)) then Threw(InvalidIp(ip))
    else if canonical.None? then Crashed(AddressParseFailed)
    else if !IsInetFamily(FamilyOf(canonical.value)) then Crashed(UnknownFamily)
    else if !parseOk then Crashed(AddressParseFailed)
    else Ok(Address(canonical.value, FamilyOf(canonical.value) == AF_INET6))
  }

  /** A failed address step, passed on unchanged. */
  function Propagate<T>(o: Outcome<Address>): (r: Outcome<T>)
    requires !o.Ok?
    ensures !r.Ok? && (r.Threw? <==> o.Threw?)
  {
    match o
    case Threw(e) => Threw(e)
    case Crashed(f) => Crashed(f)
  }

  method PrepareAddress(ip: string, canonical: Option<string>, parseOk: bool)
    returns (r: Outcome<Address>, ipOut: string)
    ensures r == AddressFor(ip, canonical, parseOk)
    ensures ipOut == NormalizedText(ip, canonical)
  {
    var n := NormalizeIp(ip, canonical);
    if !n.Ok? {
      r := if n.Threw? then Threw(n.error) else Crashed(n.fatal);
      return r, ip;
    }
    ipOut := n.value;
    var family := GetFamily(ipOut);
    if family != AF_INET && family != AF_INET6 {
      return Crashed(UnknownFamily), ipOut;
    }
    if !parseOk {
      return Crashed(AddressParseFailed), ipOut;
    }
    return Ok(Address(ipOut, family == AF_INET6)), ipOut;
  }

  /** A text with a colon, an IPv6 literal in colon notation among them, is thrown out as invalid. */
  lemma ColonTextThrows(ip: string, canonical: Option<string>, parseOk: bool, i: nat)
    requires i < |CText(ip)| && CText(ip)[i] == ':'
    ensures AddressFor(ip, canonical, parseOk) == Threw(InvalidIp(ip))
  {
    ColonRejected(ip, i);
  }

  /**
   * The canonical text is an oracle here. Should it come back with a colon,
   * as libuv prints IPv6 addresses, the family switch ends the process. With
   * libuv itself this does not arise: a text classified AF_INET6 is made of
   * digits and dots only (ClassifiedTextIsDotted), which libuv's IPv6 parser
   * refuses, so the round trip aborts earlier with AddressParseFailed.
   */
  lemma ColonFormAborts(ip: string, c: string, parseOk: bool, i: nat)
    requires IsInetFamily(FamilyOf(ip))
    requires i < |CText(c)| && CText(c)[i] == ':'
    ensures AddressFor(ip, Some(c), parseOk) == Crashed(UnknownFamily)
  {
    ColonRejected(c, i);
  }

  /** A dotted quad coming back from the round trip is bound as IPv4 (not IPv6-only). */
  lemma DottedQuadPrepared(ip: string, c: string)
    requires IsInetFamily(FamilyOf(ip)) && IsIPv4Address(c)
    ensures AddressFor(ip, Some(c), true) == Ok(Address(c, false))
  {
    IPv4AddressAccepted(c);
  }

  // ---------------------------------------------------------------------------
  // One bind attempt
  // ---------------------------------------------------------------------------

  datatype Transport = UDP | TCP

  /** libuv's answers for one bind attempt: handle init, bind, and (TCP only) listen. */
  datatype Probe = Probe(initErr: int, bindErr: int, listenErr: int)

  /** The error an attempt ends with: the bind's, or for TCP after a good bind the listen's. */
  function AttemptError(transport: Transport, p: Probe): (err: int)
    ensures err == 0 <==> (p.bindErr == 0 && (transport.TCP? ==> p.listenErr == 0))
    ensures p.bindErr != 0 ==> err == p.bindErr
    ensures transport.TCP? && p.bindErr == 0 ==> err == p.listenErr
  {
    if transport == UDP || p.bindErr != 0 then p.bindErr else p.listenErr
  }

  datatype AttemptResult = Bound | GiveUp(error: Error) | Retry

  /**
   * How an attempt on `port` ends: a failed handle init throws; a good bind
   * (and listen) keeps the handle; "too many open files" and "address not
   * available" throw; every other error moves on.
   */
  function Classify(transport: Transport, p: Probe, port: int): (a: AttemptResult)
    ensures a.Bound? <==> p.initErr == 0 && AttemptError(transport, p) == 0
    ensures a.Retry? <==>
      p.initErr == 0 && AttemptError(transport, p) !in {0, UV_EMFILE, UV_EADDRNOTAVAIL}
    ensures p.initErr != 0 ==> a == GiveUp(HandleInitFailed(p.initErr))
    ensures p.initErr == 0 && AttemptError(transport, p) == UV_EMFILE ==> a == GiveUp(TooManyOpenFiles(port))
    ensures p.initErr == 0 && AttemptError(transport, p) == UV_EADDRNOTAVAIL ==>
      a == GiveUp(AddressNotAvailable(port))
  {
    if p.initErr != 0 then GiveUp(HandleInitFailed(p.initErr))
    else
      var err := AttemptError(transport, p);
      if err == 0 then Bound
      else if err == UV_EMFILE then GiveUp(TooManyOpenFiles(port))
      else if err == UV_EADDRNOTAVAIL then GiveUp(AddressNotAvailable(port))
      else Retry
  }

  // ---------------------------------------------------------------------------
  // The port scan
  // ---------------------------------------------------------------------------

  /** The index the scan starts from: a random number modulo 8000, above the range start. */
  function StartIdx(seed: nat): (idx: int)
    ensures PortRangeStart <= idx <= PortRangeEnd
  {
    seed % 8000 + PortRangeStart
  }

  /** One step of the scan: the next index modulo 60000, lifted back into the range when it falls below it. */
  function NextPortIdx(idx: int): (next: int)
    ensures next >= PortRangeStart
    ensures PortRangeStart <= idx <= PortRangeEnd ==>
      next == if idx == PortRangeEnd then PortRangeStart else idx + 1
  {
    var m := (idx + 1) % 60000;
    if m < PortRangeStart then m + PortRangeStart else m
  }

  /**
   * The index the scan holds after `k` steps from `start`. From a start inside
   * the range every port tried is inside 52000..59999, so the 16-bit cast keeps it.
   */
  function Candidate(start: int, k: nat): (idx: int)
    ensures k > 0 ==> idx >= PortRangeStart
    ensures PortRangeStart <= start <= PortRangeEnd ==> PortRangeStart <= idx <= PortRangeEnd
  {
    if k == 0 then start else NextPortIdx(Candidate(start, k - 1))
  }

  lemma ModStep(a: int)
    requires a >= 0
    ensures (a + 1) % 8000 == if a % 8000 == 7999 then 0 else a % 8000 + 1
  {
  }

  /** Inside the range the scan walks the 8000 ports round in order, wrapping from 59999 to 52000. */
  lemma {:induction false} CandidateClosedForm(start: int, k: nat)
    requires PortRangeStart <= start <= PortRangeEnd
    ensures Candidate(start, k) == PortRangeStart + (start - PortRangeStart + k) % 8000
  {
    if k > 0 {
      CandidateClosedForm(start, k - 1);
      ModStep(start - PortRangeStart + k - 1);
    }
  }

  /** Fewer than 8000 steps apart, the scan is at different ports: no port is tried twice. */
  lemma CandidatesDistinct(start: int, i: nat, j: nat)
    requires PortRangeStart <= start <= PortRangeEnd
    requires i < j < i + 8000
    ensures Candidate(start, i) != Candidate(start, j)
  {
    CandidateClosedForm(start, i);
    CandidateClosedForm(start, j);
    ModDistinct(start - PortRangeStart + i, j - i);
  }

  lemma ModDistinct(a: nat, d: int)
    requires 0 < d < 8000
    ensures a % 8000 != (a + d) % 8000
  {
    var q, r := a / 8000, a % 8000;
    assert a == 8000 * q + r;
    if r + d < 8000 {
      assert a + d == 8000 * q + (r + d);
    } else {
      assert a + d == 8000 * (q + 1) + (r + d - 8000);
    }
  }

  datatype ScanResult = Found(port: int) | Failed(error: Error) | Exhausted

  /**
   * What attempts k + 1 .. 100 of the scan give, with `probe` giving libuv's
   * answers per port. The scan stops only on a port whose attempt succeeded or
   * on one of the three errors that end it.
   */
  function Scan(transport: Transport, start: int, probe: int -> Probe, k: nat): (r: ScanResult)
    ensures r.Found? ==> Classify(transport, probe(r.port), r.port).Bound?
    ensures r.Failed? ==>
      r.error.HandleInitFailed? || r.error.TooManyOpenFiles? || r.error.AddressNotAvailable?
    decreases BindAttempts - k
  {
    if k >= BindAttempts then Exhausted
    else
      var port := Candidate(start, k + 1);
      match Classify(transport, probe(port), port)
      case Bound => Found(port)
      case GiveUp(e) => Failed(e)
      case Retry => Scan(transport, start, probe, k + 1)
  }

  /** One attempt of the scan, unfolded. */
  lemma ScanStep(transport: Transport, start: int, probe: int -> Probe, k: nat)
    requires k < BindAttempts
    ensures var port := Candidate(start, k + 1);
      var c := Classify(transport, probe(port), port);
      && (c.Bound? ==> Scan(transport, start, probe, k) == Found(port))
      && (c.GiveUp? ==> Scan(transport, start, probe, k) == Failed(c.error))
      && (c.Retry? ==> Scan(transport, start, probe, k) == Scan(transport, start, probe, k + 1))
  {
  }

  /** The scan runs out exactly when every one of its remaining attempts moves on. */
  lemma {:induction false} ScanExhausted(transport: Transport, start: int, probe: int -> Probe, k: nat)
    ensures Scan(transport, start, probe, k) == Exhausted <==>
      forall i :: k < i <= BindAttempts ==>
        Classify(transport, probe(Candidate(start, i)), Candidate(start, i)).Retry?
    decreases BindAttempts - k
  {
    if k < BindAttempts {
      ScanExhausted(transport, start, probe, k + 1);
      ScanStep(transport, start, probe, k);
      if Scan(transport, start, probe, k) == Exhausted {
        forall i | k < i <= BindAttempts
          ensures Classify(transport, probe(Candidate(start, i)), Candidate(start, i)).Retry?
        {
        }
      }
    }
  }

  /** A port the scan ends on is inside the range and one whose bind (and listen) succeeded. */
  lemma {:induction false} ScanFoundBound(transport: Transport, start: int, probe: int -> Probe, k: nat)
    requires PortRangeStart <= start <= PortRangeEnd
    ensures Scan(transport, start, probe, k).Found? ==>
      var p := Scan(transport, start, probe, k).port;
      PortRangeStart <= p <= PortRangeEnd && Classify(transport, probe(p), p).Bound?
    decreases BindAttempts - k
  {
    if k < BindAttempts {
      ScanFoundBound(transport, start, probe, k + 1);
    }
  }

  /** An error the scan ends with is the one some candidate port gave. */
  lemma {:induction false} ScanFailedAtCandidate(transport: Transport, start: int, probe: int -> Probe, k: nat)
    ensures Scan(transport, start, probe, k).Failed? ==>
      exists i :: k < i <= BindAttempts &&
        Classify(transport, probe(Candidate(start, i)), Candidate(start, i)) ==
        GiveUp(Scan(transport, start, probe, k).error)
    decreases BindAttempts - k
  {
    if k < BindAttempts {
      var port := Candidate(start, k + 1);
      var c := Classify(transport, probe(port), port);
      if c.GiveUp? {
        assert Scan(transport, start, probe, k) == Failed(c.error);
        assert Classify(transport, probe(Candidate(start, k + 1)), Candidate(start, k + 1)) == GiveUp(c.error);
      } else if c.Retry? {
        assert Scan(transport, start, probe, k) == Scan(transport, start, probe, k + 1);
        ScanFailedAtCandidate(transport, start, probe, k + 1);
      }
    }
  }

  /** A bound handle and its port. */
  datatype Binding = Binding(handle: Handle, port: Port, ipv6Only: bool)

  /**
   * One attempt: a fresh handle is initialised, bound and, for TCP, set
   * listening. A failed init deletes the handle; any later failure closes it.
   */
  method TryBind(transport: Transport, p: Probe, port: int) returns (a: AttemptResult, h: Handle)
    ensures a == Classify(transport, p, port)
    ensures fresh(h) && h.data == null
    ensures a.Bound? ==> !h.closing && (h.active <==> transport == TCP)
    ensures p.initErr == 0 && !a.Bound? ==> h.closing
  {
    h := new Handle();
    if p.initErr != 0 {
      // The handle is deleted, never closed.
      return GiveUp(HandleInitFailed(p.initErr)), h;
    }
    var err := p.bindErr;
    if transport == TCP && err == 0 {
      err := p.listenErr;
      if err == 0 {
        h.Activate();
      }
    }
    if err == 0 {
      return Bound, h;
    }
    h.Close();
    if err == UV_EMFILE {
      return GiveUp(TooManyOpenFiles(port)), h;
    }
    if err == UV_EADDRNOTAVAIL {
      return GiveUp(AddressNotAvailable(port)), h;
    }
    return Retry, h;
  }

  /**
   * The scanning Bind: up to 100 attempts over the port range, starting after
   * a random index (`seed` stands for the `rand()` value); each attempt gets a
   * fresh handle, and a failed one is closed before the next.
   */
  method Bind(transport: Transport, ip: string, canonical: Option<string>, parseOk: bool,
              seed: nat, probe: int -> Probe) returns (r: Outcome<Binding>, ipOut: string)
    ensures ipOut == NormalizedText(ip, canonical)
    ensures !AddressFor(ip, canonical, parseOk).Ok? ==> r == Propagate(AddressFor(ip, canonical, parseOk))
    ensures AddressFor(ip, canonical, parseOk).Ok? ==>
      match Scan(transport, StartIdx(seed), probe, 0)
      case Exhausted => r == Threw(NoMorePorts)
      case Failed(e) => r == Threw(e)
      case Found(p) =>
        && r.Ok? && r.value.port as int == p
        && r.value.ipv6Only == AddressFor(ip, canonical, parseOk).value.ipv6Only
        && fresh(r.value.handle) && r.value.handle.data == null && !r.value.handle.closing
        && (r.value.handle.active <==> transport == TCP)
  {
    var addr;
    addr, ipOut := PrepareAddress(ip, canonical, parseOk);
    if !addr.Ok? {
      return Propagate(addr), ipOut;
    }
    r := ScanPorts(transport, StartIdx(seed), probe, addr.value.ipv6Only);
  }

  /** The attempt loop of the scanning Bind, from start index `start`. */
  method ScanPorts(transport: Transport, start: int, probe: int -> Probe, ipv6Only: bool)
    returns (r: Outcome<Binding>)
    requires PortRangeStart <= start <= PortRangeEnd
    ensures match Scan(transport, start, probe, 0)
      case Exhausted => r == Threw(NoMorePorts)
      case Failed(e) => r == Threw(e)
      case Found(p) =>
        && r.Ok? && r.value.port as int == p && r.value.ipv6Only == ipv6Only
        && fresh(r.value.handle) && r.value.handle.data == null && !r.value.handle.closing
        && (r.value.handle.active <==> transport == TCP)
  {
    var portIdx := start;
    var attempt: nat := 0;
    while true
      invariant attempt <= BindAttempts
      invariant portIdx == Candidate(start, attempt)
      invariant Scan(transport, start, probe, attempt) == Scan(transport, start, probe, 0)
      decreases BindAttempts - attempt
    {
      attempt := attempt + 1;
      if attempt > BindAttempts {
        return Threw(NoMorePorts);
      }
      ScanStep(transport, start, probe, attempt - 1);
      portIdx := (portIdx + 1) % 60000;
      if portIdx < PortRangeStart {
        portIdx := portIdx + PortRangeStart;
      }
      assert portIdx == Candidate(start, attempt);
      var a, h := TryBind(transport, probe(portIdx), portIdx);
      match a
      case Bound =>
        return Ok(Binding(h, portIdx as Port, ipv6Only));
      case GiveUp(e) =>
        return Threw(e);
      case Retry =>
    }
  }

  // ---------------------------------------------------------------------------
  // The fixed-port Bind
  // ---------------------------------------------------------------------------

  /**
   * The fixed-port Bind as written: one attempt inside `do { ... } while (0)`.
   * A retryable error closes the handle and falls out of the loop, so the
   * caller gets back a handle that is already closing.
   */
  method BindFixed(transport: Transport, ip: string, canonical: Option<string>, parseOk: bool,
                   port: Port, p: Probe) returns (r: Outcome<Binding>, ipOut: string)
    ensures ipOut == NormalizedText(ip, canonical)
    ensures !AddressFor(ip, canonical, parseOk).Ok? ==> r == Propagate(AddressFor(ip, canonical, parseOk))
    ensures AddressFor(ip, canonical, parseOk).Ok? ==>
      match Classify(transport, p, port as int)
      case GiveUp(e) => r == Threw(e)
      case Bound =>
        && r.Ok? && r.value.port == port && fresh(r.value.handle) && !r.value.handle.closing
        && r.value.ipv6Only == AddressFor(ip, canonical, parseOk).value.ipv6Only
        && r.value.handle.data == null
        && (r.value.handle.active <==> transport == TCP)
      case Retry =>
        && r.Ok? && r.value.port == port && fresh(r.value.handle) && r.value.handle.closing
        && r.value.ipv6Only == AddressFor(ip, canonical, parseOk).value.ipv6Only
        && r.value.handle.data == null
  {
    var addr;
    addr, ipOut := PrepareAddress(ip, canonical, parseOk);
    if !addr.Ok? {
      return Propagate(addr), ipOut;
    }
    var a, h := TryBind(transport, p, port as int);
    if a.GiveUp? {
      return Threw(a.error), ipOut;
    }
    return Ok(Binding(h, port, addr.value.ipv6Only)), ipOut;
  }

  /**
   * The fixed-port Bind as evidently intended: a failed attempt never hands
   * back its handle; every other bind error throws with the port and the error.
   */
  method BindFixedChecked(transport: Transport, ip: string, canonical: Option<string>, parseOk: bool,
                          port: Port, p: Probe) returns (r: Outcome<Binding>, ipOut: string)
    ensures ipOut == NormalizedText(ip, canonical)
    ensures !AddressFor(ip, canonical, parseOk).Ok? ==> r == Propagate(AddressFor(ip, canonical, parseOk))
    ensures AddressFor(ip, canonical, parseOk).Ok? ==>
      match Classify(transport, p, port as int)
      case GiveUp(e) => r == Threw(e)
      case Bound =>
        && r.Ok? && r.value.port == port && fresh(r.value.handle) && !r.value.handle.closing
        && r.value.ipv6Only == AddressFor(ip, canonical, parseOk).value.ipv6Only
        && r.value.handle.data == null
        && (r.value.handle.active <==> transport == TCP)
      case Retry => r == Threw(BindFailed(port as int, AttemptError(transport, p)))
    ensures r.Ok? ==> !r.value.handle.closing
  {
    var addr;
    addr, ipOut := PrepareAddress(ip, canonical, parseOk);
    if !addr.Ok? {
      return Propagate(addr), ipOut;
    }
    var a, h := TryBind(transport, p, port as int);
    match a
    case GiveUp(e) =>
      return Threw(e), ipOut;
    case Retry =>
      return Threw(BindFailed(port as int, AttemptError(transport, p))), ipOut;
    case Bound =>
      return Ok(Binding(h, port, addr.value.ipv6Only)), ipOut;
  }

  // ---------------------------------------------------------------------------
  // Unbind
  // ---------------------------------------------------------------------------

  /**
   * Unbind checks the port against the range and reports (logs) one outside
   * it; in both cases it releases nothing, as the port tables are never kept.
   */
  function Unbind(transport: Transport, ip: string, port: Port): (outOfRange: bool)
  {
    port as int < PortRangeStart || port as int > PortRangeEnd
  }

  /** A port the scan hands out is always unbound without a complaint. */
  lemma ScannedPortUnbindsQuietly(transport: Transport, ip: string, seed: nat, probe: int -> Probe)
    requires Scan(transport, StartIdx(seed), probe, 0).Found?
    ensures var p := Scan(transport, StartIdx(seed), probe, 0).port;
      0 <= p < 0x1_0000 && !Unbind(transport, ip, p as Port)
  {
    ScanFoundBound(transport, StartIdx(seed), probe, 0);
  }
}
