/** The order on version strings that decides whether an update is newer. */
module Version {
  // A numeric core comes first, then prerelease identifiers; build metadata and a leading v are ignored.

  import opened Options
  import opened Text

  // Go's int has 64 bits.
  const LIMIT: int := 0x8000_0000_0000_0000

  predicate IsDigit(c: char) {
    '0' <= c <= '9'
  }

  predicate AllDigits(s: string) {
    forall i :: 0 <= i < |s| ==> IsDigit(s[i])
  }

  function Value(digits: string): (n: nat)
    requires AllDigits(digits)
  {
    if digits == "" then 0
    else Value(digits[..|digits| - 1]) * 10 + (digits[|digits| - 1] as int - '0' as int)
  }

  // strconv.Atoi: an optional sign and at least one digit, inside the range of int
  function Atoi(s: string): Option<int> {
    var signed := s != "" && (s[0] == '-' || s[0] == '+');
    var digits := if signed then s[1..] else s;
    if digits == "" || !AllDigits(digits) then None
    else
      var n: int := Value(digits);
      if signed && s[0] == '-' then (if n <= LIMIT then Some(-n) else None)
      else if n < LIMIT then Some(n) else None
  }

  function Sign(x: int, y: int): int {
    if x < y then -1 else if x > y then 1 else 0
  }

  function TextSign(x: string, y: string): int {
    if x == y then 0 else if Before(x, y) then -1 else 1
  }

  // ----- the comparison -----

  function SplitPrerelease(v: string): (string, string) {
    var v := if v != "" && v[0] == 'v' then v[1..] else v;
    var v := v[..IndexOf(v, '+')];
    var i := IndexOf(v, '-');
    if i < |v| then (v[..i], v[i + 1..]) else (v, "")
  }

  function Segment(parts: seq<string>, i: nat): int {
    if i >= |parts| then 0
    else
      var n := Atoi(parts[i]);
      if n.Some? then n.value else 0
  }

  // The order of two cores from segment i on.
  function CoreOrder(a: seq<string>, b: seq<string>, i: nat): int
    decreases |a| + |b| - i
  {
    if i >= |a| && i >= |b| then 0
    else
      var c := Sign(Segment(a, i), Segment(b, i));
      if c != 0 then c else CoreOrder(a, b, i + 1)
  }

  function IdOrder(x: string, y: string): int {
    match (Atoi(x), Atoi(y))
    case (Some(n), Some(m)) => Sign(n, m)
    case (Some(_), None) => -1
    case (None, Some(_)) => 1
    case (None, None) => TextSign(x, y)
  }

  function IdsOrder(a: seq<string>, b: seq<string>): int {
    if a == [] || b == [] then Sign(|a|, |b|)
    else
      var c := IdOrder(a[0], b[0]);
      if c != 0 then c else IdsOrder(a[1..], b[1..])
  }

  function PrereleaseOrder(a: string, b: string): int {
    if a == "" || b == "" then Sign(|b|, |a|) else IdsOrder(Split(a, '.'), Split(b, '.'))
  }

  function Order(a: string, b: string): int {
    var (aCore, aPre) := SplitPrerelease(a);
    var (bCore, bPre) := SplitPrerelease(b);
    var c := CoreOrder(Split(aCore, '.'), Split(bCore, '.'), 0);
    if c != 0 then c else PrereleaseOrder(aPre, bPre)
  }

  method CompareCore(a: string, b: string) returns (c: int)
    ensures c == CoreOrder(Split(a, '.'), Split(b, '.'), 0)
  {
    var ap, bp := Split(a, '.'), Split(b, '.');
    var n := if |bp| > |ap| then |bp| else |ap|;
    for i := 0 to n
      invariant CoreOrder(ap, bp, 0) == CoreOrder(ap, bp, i)
    {
      var ai, bi := Segment(ap, i), Segment(bp, i);
      if ai != bi {
        return if ai < bi then -1 else 1;
      }
    }
    return 0;
  }

  method ComparePrerelease(a: string, b: string) returns (c: int)
    ensures c == PrereleaseOrder(a, b)
  {
    hide Atoi, Split;
    if a == b {
      IdsReflexive(Split(a, '.'));
      return 0;
    }
    if a == "" { return 1; }
    if b == "" { return -1; }
    var ap, bp := Split(a, '.'), Split(b, '.');
    assert ap[0..] == ap && bp[0..] == bp;
    var n := if |bp| < |ap| then |bp| else |ap|;
    for i := 0 to n
      invariant IdsOrder(ap, bp) == IdsOrder(ap[i..], bp[i..])
    {
      assert ap[i..][1..] == ap[i + 1..] && bp[i..][1..] == bp[i + 1..];
      var ai, bi := Atoi(ap[i]), Atoi(bp[i]);
      if ai.Some? && bi.Some? {
        if ai.value != bi.value { return if ai.value < bi.value then -1 else 1; }
      } else if ai.Some? {
        return -1;
      } else if bi.Some? {
        return 1;
      } else if ap[i] != bp[i] {
        return if Before(ap[i], bp[i]) then -1 else 1;
      }
    }
    return if |ap| < |bp| then -1 else if |ap| > |bp| then 1 else 0;
  }

  method Compare(a: string, b: string) returns (c: int)
    ensures c == Order(a, b)
  {
    var (aCore, aPre) := SplitPrerelease(a);
    var (bCore, bPre) := SplitPrerelease(b);
    c := CompareCore(aCore, bCore);
    if c == 0 { c := ComparePrerelease(aPre, bPre); }
  }

  method IsNewer(a: string, b: string) returns (newer: bool)
    ensures newer <==> Newer(a, b)
  {
    var c := Compare(a, b);
    return c > 0;
  }

  predicate Newer(a: string, b: string) {
    Order(a, b) > 0
  }

  // ----- a strict weak order on all strings -----

  /** ab and bc are the comparisons of three values in a row, ac that of the outer two. */
  predicate Chain(ab: int, bc: int, ac: int) {
    ab > 0 || bc > 0 || ac < 0 || ab == bc == ac == 0
  }

  lemma IdReflexive(x: string)
    ensures IdOrder(x, x) == 0
  {}

  lemma {:induction false} IdsReflexive(a: seq<string>)
    ensures IdsOrder(a, a) == 0
  {
    if a != [] {
      IdReflexive(a[0]);
      IdsReflexive(a[1..]);
    }
  }

  lemma TextFlip(x: string, y: string)
    ensures TextSign(x, y) == -TextSign(y, x)
  {
    BeforeTotal(x, y);
    if Before(x, y) && Before(y, x) {
      BeforeTransitive(x, y, x);
      BeforeIrreflexive(x);
    }
  }

  lemma TextChain(x: string, y: string, z: string)
    ensures Chain(TextSign(x, y), TextSign(y, z), TextSign(x, z))
  {
    if Before(x, y) && Before(y, z) {
      BeforeTransitive(x, y, z);
      BeforeIrreflexive(x);
    }
  }

  lemma IdFlip(x: string, y: string)
    ensures IdOrder(x, y) == -IdOrder(y, x)
  {
    hide Atoi;
    TextFlip(x, y);
  }

  lemma IdChain(x: string, y: string, z: string)
    ensures Chain(IdOrder(x, y), IdOrder(y, z), IdOrder(x, z))
  {
    hide Atoi, TextSign;
    TextChain(x, y, z);
  }

  lemma {:induction false} IdsFlip(a: seq<string>, b: seq<string>)
    ensures IdsOrder(a, b) == -IdsOrder(b, a)
  {
    hide IdOrder;
    if a != [] && b != [] {
      IdFlip(a[0], b[0]);
      IdsFlip(a[1..], b[1..]);
    }
  }

  lemma {:induction false} IdsChain(a: seq<string>, b: seq<string>, c: seq<string>)
    ensures Chain(IdsOrder(a, b), IdsOrder(b, c), IdsOrder(a, c))
  {
    hide IdOrder;
    if a != [] && b != [] && c != [] {
      IdChain(a[0], b[0], c[0]);
      IdsChain(a[1..], b[1..], c[1..]);
    }
  }

  lemma {:induction false} CoreFlip(a: seq<string>, b: seq<string>, i: nat)
    ensures CoreOrder(a, b, i) == -CoreOrder(b, a, i)
    decreases |a| + |b| - i
  {
    hide Segment;
    if i < |a| || i < |b| { CoreFlip(a, b, i + 1); }
  }

  lemma PastTheEnd(a: seq<string>, i: nat)
    ensures i >= |a| ==> Segment(a, i) == 0
  {}

  lemma {:induction false} CoreChain(a: seq<string>, b: seq<string>, c: seq<string>, i: nat)
    ensures Chain(CoreOrder(a, b, i), CoreOrder(b, c, i), CoreOrder(a, c, i))
    decreases |a| + |b| + |c| - i
  {
    hide Segment;
    PastTheEnd(a, i);
    PastTheEnd(b, i);
    PastTheEnd(c, i);
    if i < |a| || i < |b| || i < |c| { CoreChain(a, b, c, i + 1); }
  }

  lemma Flip(a: string, b: string)
    ensures Order(a, b) == -Order(b, a)
  {
    hide SplitPrerelease, Split, CoreOrder, IdsOrder;
    var (aCore, aPre) := SplitPrerelease(a);
    var (bCore, bPre) := SplitPrerelease(b);
    CoreFlip(Split(aCore, '.'), Split(bCore, '.'), 0);
    IdsFlip(Split(aPre, '.'), Split(bPre, '.'));
  }

  lemma OrderChain(a: string, b: string, c: string)
    ensures Chain(Order(a, b), Order(b, c), Order(a, c))
  {
    hide SplitPrerelease, Split, CoreOrder, IdsOrder;
    var (aCore, aPre) := SplitPrerelease(a);
    var (bCore, bPre) := SplitPrerelease(b);
    var (cCore, cPre) := SplitPrerelease(c);
    CoreChain(Split(aCore, '.'), Split(bCore, '.'), Split(cCore, '.'), 0);
    IdsChain(Split(aPre, '.'), Split(bPre, '.'), Split(cPre, '.'));
  }

  /** IsNewer is a strict weak order on all strings: irreflexive, asymmetric, transitive, and "neither is
      newer" is transitive too. */
  lemma StrictWeakOrder(a: string, b: string, c: string)
    ensures !Newer(a, a)
    ensures Newer(a, b) ==> !Newer(b, a)
    ensures Newer(a, b) && Newer(b, c) ==> Newer(a, c)
    ensures !Newer(a, b) && !Newer(b, a) && !Newer(b, c) && !Newer(c, b) ==> !Newer(a, c) && !Newer(c, a)
  {
    hide Order;
    Flip(a, a);
    Flip(a, b);
    Flip(b, c);
    Flip(a, c);
    OrderChain(a, b, c);
    OrderChain(c, b, a);
  }

  /** No chain of accepted updates comes back to where it started. */
  lemma {:induction false} UpgradesNeverCycle(chain: seq<string>)
    requires |chain| > 1 && forall i :: 0 < i < |chain| ==> Newer(chain[i], chain[i - 1])
    ensures Newer(chain[|chain| - 1], chain[0]) && chain[|chain| - 1] != chain[0]
  {
    hide Newer;
    var n := |chain| - 1;
    StrictWeakOrder(chain[0], chain[0], chain[0]);
    if n > 1 {
      UpgradesNeverCycle(chain[..n]);
      assert Newer(chain[n], chain[n - 1]);
      StrictWeakOrder(chain[n], chain[n - 1], chain[0]);
    }
  }

  // ----- SemVer 2.0.0 -----

  datatype Identifier = Numeric(n: nat) | Alphanumeric(text: string)

  datatype SemVer = SemVer(major: nat, minor: nat, patch: nat, pre: seq<Identifier>, build: Option<string>)

  // [0-9A-Za-z-]
  predicate IdentifierChar(c: char) {
    IsDigit(c) || 'A' <= c <= 'Z' || 'a' <= c <= 'z' || c == '-'
  }

  /** Section 9: an alphanumeric identifier has at least one character that is not a digit. */
  predicate ValidIdentifier(id: Identifier) {
    id.Alphanumeric? ==> !AllDigits(id.text) && forall i :: 0 <= i < |id.text| ==> IdentifierChar(id.text[i])
  }

  predicate Valid(v: SemVer) {
    forall i :: 0 <= i < |v.pre| ==> ValidIdentifier(v.pre[i])
  }

  function IdPrecedence(x: Identifier, y: Identifier): int {
    match (x, y)
    case (Numeric(n), Numeric(m)) => Sign(n, m)
    case (Numeric(_), Alphanumeric(_)) => -1
    case (Alphanumeric(_), Numeric(_)) => 1
    case (Alphanumeric(s), Alphanumeric(t)) => TextSign(s, t)
  }

  function IdsPrecedence(a: seq<Identifier>, b: seq<Identifier>): int {
    if a == [] || b == [] then Sign(|a|, |b|)
    else
      var c := IdPrecedence(a[0], b[0]);
      if c != 0 then c else IdsPrecedence(a[1..], b[1..])
  }

  /** Section 11 of SemVer 2.0.0. */
  function Precedence(v: SemVer, w: SemVer): int {
    if v.major != w.major then Sign(v.major, w.major)
    else if v.minor != w.minor then Sign(v.minor, w.minor)
    else if v.patch != w.patch then Sign(v.patch, w.patch)
    else if v.pre == [] || w.pre == [] then Sign(|w.pre|, |v.pre|)
    else IdsPrecedence(v.pre, w.pre)
  }

  // Numbers are written without leading zeros.
  function Decimal(n: nat): (s: string)
    ensures s != "" && AllDigits(s) && Value(s) == n
  {
    var last := '0' + (n % 10) as char;
    if n < 10 then [last]
    else
      var s := Decimal(n / 10) + [last];
      assert s[..|s| - 1] == Decimal(n / 10);
      s
  }

  function IdText(id: Identifier): string {
    match id
    case Numeric(n) => Decimal(n)
    case Alphanumeric(s) => s
  }

  function IdTexts(ids: seq<Identifier>): (ts: seq<string>)
    ensures |ts| == |ids| && forall i :: 0 <= i < |ts| ==> ts[i] == IdText(ids[i])
  {
    seq(|ids|, i requires 0 <= i < |ids| => IdText(ids[i]))
  }

  function Dotted(ts: seq<string>): string
    requires ts != []
  {
    if |ts| == 1 then ts[0] else ts[0] + ['.'] + Dotted(ts[1..])
  }

  function Core(v: SemVer): string {
    Dotted([Decimal(v.major), Decimal(v.minor), Decimal(v.patch)])
  }

  function Unbuilt(v: SemVer): string {
    if v.pre == [] then Core(v) else Core(v) + ['-'] + Dotted(IdTexts(v.pre))
  }

  function Written(v: SemVer): string {
    if v.build.None? then Unbuilt(v) else Unbuilt(v) + ['+'] + v.build.value
  }

  lemma {:induction false} DottedSplits(ts: seq<string>)
    requires ts != [] && forall i :: 0 <= i < |ts| ==> '.' !in ts[i]
    ensures Split(Dotted(ts), '.') == ts
  {
    if |ts| == 1 {
      SplitFirst(ts[0], "", '.');
    } else {
      SplitFirst(ts[0], Dotted(ts[1..]), '.');
      DottedSplits(ts[1..]);
    }
  }

  lemma {:induction false} DottedChars(ts: seq<string>, c: char)
    requires ts != [] && c != '.' && forall i :: 0 <= i < |ts| ==> c !in ts[i]
    ensures c !in Dotted(ts)
  {
    if |ts| > 1 { DottedChars(ts[1..], c); }
  }

  lemma {:induction false} DottedNonempty(ts: seq<string>)
    requires ts != [] && ts[0] != ""
    ensures Dotted(ts) != "" && Dotted(ts)[0] == ts[0][0]
  {}

  lemma CoreText(v: SemVer)
    ensures Split(Core(v), '.') == [Decimal(v.major), Decimal(v.minor), Decimal(v.patch)]
    ensures Core(v) != "" && Core(v)[0] != 'v' && '-' !in Core(v) && '+' !in Core(v)
  {
    hide Dotted, Decimal, Split;
    var ts := [Decimal(v.major), Decimal(v.minor), Decimal(v.patch)];
    DottedSplits(ts);
    DottedChars(ts, '-');
    DottedChars(ts, '+');
    DottedNonempty(ts);
  }

  lemma IdChars(id: Identifier)
    requires ValidIdentifier(id)
    ensures IdText(id) != "" && '.' !in IdText(id) && '+' !in IdText(id)
  {}

  lemma PreText(ids: seq<Identifier>)
    requires ids != [] && forall i :: 0 <= i < |ids| ==> ValidIdentifier(ids[i])
    ensures Split(Dotted(IdTexts(ids)), '.') == IdTexts(ids)
    ensures Dotted(IdTexts(ids)) != "" && '+' !in Dotted(IdTexts(ids))
  {
    hide Dotted, IdText, ValidIdentifier, Split;
    var ts := IdTexts(ids);
    forall i | 0 <= i < |ts| ensures ts[i] != "" && '.' !in ts[i] && '+' !in ts[i] {
      IdChars(ids[i]);
    }
    DottedSplits(ts);
    DottedChars(ts, '+');
    DottedNonempty(ts);
  }

  lemma CutAt(a: string, c: char, b: string)
    requires c !in a
    ensures IndexOf(a, c) == |a| && IndexOf(a + [c] + b, c) == |a|
    ensures a[..|a|] == a && (a + [c] + b)[..|a|] == a && (a + [c] + b)[|a| + 1..] == b
  {
    var s := a + [c] + b;
    assert a[..|a|] == a && s[..|a|] == a && s[|a| + 1..] == b;
    IndexOfFirst(a, c, |a|);
    IndexOfFirst(s, c, |a|);
  }

  // A valid version is taken apart into its core and its prerelease.
  lemma WrittenSplits(v: SemVer)
    requires Valid(v)
    ensures SplitPrerelease(Written(v)) == (Core(v), if v.pre == [] then "" else Dotted(IdTexts(v.pre)))
  {
    hide Core, Dotted, Split, IndexOf;
    CoreText(v);
    var u := Unbuilt(v);
    if v.pre != [] {
      var p := Dotted(IdTexts(v.pre));
      PreText(v.pre);
      CutAt(Core(v), '-', p);
    } else {
      CutAt(Core(v), '-', "");
    }
    assert '+' !in u && u[0] != 'v';
    if v.build.None? {
      CutAt(u, '+', "");
    } else {
      CutAt(u, '+', v.build.value);
    }
  }

  // ----- where Atoi reads a number as written -----

  /** An identifier whose kind and value the comparison recognises. */
  predicate Plain(id: Identifier) {
    match id
    case Numeric(n) => n < 9223372036854775808
    case Alphanumeric(s) => !Negative(s)
  }

  // A hyphen and digits, within the range of int: section 9 makes it alphanumeric, Atoi a number.
  predicate Negative(s: string) {
    |s| > 1 && s[0] == '-' && AllDigits(s[1..]) && Value(s[1..]) <= 9223372036854775808
  }

  predicate PlainVersion(v: SemVer) {
    v.major < 9223372036854775808 && v.minor < 9223372036854775808 && v.patch < 9223372036854775808 && forall i :: 0 <= i < |v.pre| ==> Plain(v.pre[i])
  }

  lemma DecimalRead(n: nat)
    ensures Atoi(Decimal(n)) == if n < LIMIT then Some(n) else None
  {
    var s := Decimal(n);
    assert IsDigit(s[0]);
  }

  lemma AlphanumericRead(s: string)
    requires ValidIdentifier(Alphanumeric(s))
    ensures Atoi(s).Some? <==> Negative(s)
    ensures Negative(s) ==> Atoi(s) == Some(0 - Value(s[1..]))
  {
    assert s != "" ==> IdentifierChar(s[0]);
  }

  lemma IdAgrees(x: Identifier, y: Identifier)
    requires ValidIdentifier(x) && ValidIdentifier(y) && Plain(x) && Plain(y)
    ensures IdOrder(IdText(x), IdText(y)) == IdPrecedence(x, y)
  {
    hide Atoi, Negative, TextSign, Decimal;
    if x.Numeric? { DecimalRead(x.n); } else { AlphanumericRead(x.text); }
    if y.Numeric? { DecimalRead(y.n); } else { AlphanumericRead(y.text); }
  }

  lemma {:induction false} IdsAgree(a: seq<Identifier>, b: seq<Identifier>)
    requires forall i :: 0 <= i < |a| ==> ValidIdentifier(a[i]) && Plain(a[i])
    requires forall i :: 0 <= i < |b| ==> ValidIdentifier(b[i]) && Plain(b[i])
    ensures IdsOrder(IdTexts(a), IdTexts(b)) == IdsPrecedence(a, b)
  {
    hide IdOrder, IdPrecedence, ValidIdentifier, Plain, IdText;
    if a != [] && b != [] {
      IdAgrees(a[0], b[0]);
      IdsAgree(a[1..], b[1..]);
      assert IdTexts(a)[1..] == IdTexts(a[1..]) && IdTexts(b)[1..] == IdTexts(b[1..]);
    }
  }

  function Read(n: nat): int {
    if n < LIMIT then n else 0
  }

  lemma CoreRead(v: SemVer, w: SemVer)
    ensures CoreOrder(Split(Core(v), '.'), Split(Core(w), '.'), 0) ==
      if Read(v.major) != Read(w.major) then Sign(Read(v.major), Read(w.major))
      else if Read(v.minor) != Read(w.minor) then Sign(Read(v.minor), Read(w.minor))
      else Sign(Read(v.patch), Read(w.patch))
  {
    hide Atoi, Decimal, Split, Core;
    CoreText(v);
    CoreText(w);
    DecimalRead(v.major);
    DecimalRead(v.minor);
    DecimalRead(v.patch);
    DecimalRead(w.major);
    DecimalRead(w.minor);
    DecimalRead(w.patch);
    var a, b := Split(Core(v), '.'), Split(Core(w), '.');
    assert CoreOrder(a, b, 3) == 0;
    assert CoreOrder(a, b, 2) == Sign(Read(v.patch), Read(w.patch));
  }

  lemma WrittenOrder(v: SemVer, w: SemVer)
    requires Valid(v) && Valid(w)
    ensures Order(Written(v), Written(w)) ==
      var c := CoreOrder(Split(Core(v), '.'), Split(Core(w), '.'), 0);
      if c != 0 then c
      else if v.pre == [] || w.pre == [] then Sign(|w.pre|, |v.pre|)
      else IdsOrder(IdTexts(v.pre), IdTexts(w.pre))
  {
    hide SplitPrerelease, Written, Core, Split, Dotted, CoreOrder, IdsOrder;
    WrittenSplits(v);
    WrittenSplits(w);
    if v.pre != [] { PreText(v.pre); }
    if w.pre != [] { PreText(w.pre); }
  }

  /** On valid versions whose numbers fit in an int and whose identifiers are not a hyphen and digits, the
      comparison is the precedence of section 11. */
  lemma AgreesWithSemVer(v: SemVer, w: SemVer)
    requires Valid(v) && Valid(w) && PlainVersion(v) && PlainVersion(w)
    ensures Sign(Order(Written(v), Written(w)), 0) == Precedence(v, w)
    ensures Newer(Written(v), Written(w)) <==> Precedence(v, w) > 0
  {
    hide Order, Written, CoreOrder, IdsOrder, IdsPrecedence, Core, Split;
    WrittenOrder(v, w);
    CoreRead(v, w);
    IdsAgree(v.pre, w.pre);
    PrecedenceIsSign(v.pre, w.pre);
  }

  lemma {:induction false} PrecedenceIsSign(a: seq<Identifier>, b: seq<Identifier>)
    ensures -1 <= IdsPrecedence(a, b) <= 1
  {
    if a != [] && b != [] { PrecedenceIsSign(a[1..], b[1..]); }
  }

  // ----- no other valid version is compared right with all of them -----

  // A plain identifier that a misread one is put on the wrong side of.
  function Counter(id: Identifier): (c: Identifier)
    ensures ValidIdentifier(c) && Plain(c)
  {
    assert !IsDigit("-"[0]) && !AllDigits("-");
    if id.Numeric? then Alphanumeric("-") else Numeric(1)
  }

  lemma CounterMisplaced(id: Identifier)
    requires ValidIdentifier(id) && !Plain(id)
    ensures var x, y := IdText(id), IdText(Counter(id));
      IdOrder(x, y) != 0 && IdOrder(x, y) == -IdPrecedence(id, Counter(id))
  {
    if id.Numeric? {
      DecimalRead(id.n);
      assert IsDigit(Decimal(id.n)[0]);
      assert !Before(Decimal(id.n), "-");
    } else {
      AlphanumericRead(id.text);
      DecimalRead(1);
    }
  }

  lemma {:induction false} SamePrefixText(p: seq<string>, a: seq<string>, b: seq<string>)
    ensures IdsOrder(p + a, p + b) == IdsOrder(a, b)
  {
    hide IdOrder;
    if p == [] {
      assert p + a == a && p + b == b;
    } else {
      IdReflexive(p[0]);
      assert (p + a)[1..] == p[1..] + a && (p + b)[1..] == p[1..] + b;
      SamePrefixText(p[1..], a, b);
    }
  }

  lemma {:induction false} SamePrefixIds(p: seq<Identifier>, a: seq<Identifier>, b: seq<Identifier>)
    ensures IdsPrecedence(p + a, p + b) == IdsPrecedence(a, b)
  {
    if p == [] {
      assert p + a == a && p + b == b;
    } else {
      assert (p + a)[1..] == p[1..] + a && (p + b)[1..] == p[1..] + b;
      SamePrefixIds(p[1..], a, b);
    }
  }

  lemma SamePrefix(p: seq<Identifier>, a: seq<Identifier>, b: seq<Identifier>)
    ensures IdsOrder(IdTexts(p + a), IdTexts(p + b)) == IdsOrder(IdTexts(a), IdTexts(b))
    ensures IdsPrecedence(p + a, p + b) == IdsPrecedence(a, b)
  {
    hide IdText, IdsOrder, IdsPrecedence, IdTexts;
    assert IdTexts(p + a) == IdTexts(p) + IdTexts(a);
    assert IdTexts(p + b) == IdTexts(p) + IdTexts(b);
    SamePrefixText(IdTexts(p), IdTexts(a), IdTexts(b));
    SamePrefixIds(p, a, b);
  }

  lemma {:induction false} FirstMisread(ids: seq<Identifier>) returns (i: nat)
    requires exists j :: 0 <= j < |ids| && !Plain(ids[j])
    ensures i < |ids| && !Plain(ids[i]) && forall j :: 0 <= j < i ==> Plain(ids[j])
  {
    i := 0;
    while Plain(ids[i])
      invariant i < |ids| && forall j :: 0 <= j < i ==> Plain(ids[j])
      invariant exists j :: i <= j < |ids| && !Plain(ids[j])
      decreases |ids| - i
    {
      i := i + 1;
    }
  }

  lemma HeadDecides(ids: seq<Identifier>, c: Identifier)
    requires ids != [] && IdOrder(IdText(ids[0]), IdText(c)) != 0 && IdPrecedence(ids[0], c) != 0
    ensures IdsOrder(IdTexts(ids), IdTexts([c])) == IdOrder(IdText(ids[0]), IdText(c))
    ensures IdsPrecedence(ids, [c]) == IdPrecedence(ids[0], c)
  {
    hide IdOrder, IdPrecedence, IdText;
  }

  lemma IdsSpoiled(ids: seq<Identifier>) returns (other: seq<Identifier>)
    requires forall i :: 0 <= i < |ids| ==> ValidIdentifier(ids[i])
    requires exists j :: 0 <= j < |ids| && !Plain(ids[j])
    ensures other != [] && forall i :: 0 <= i < |other| ==> ValidIdentifier(other[i]) && Plain(other[i])
    ensures IdsOrder(IdTexts(ids), IdTexts(other)) == -IdsPrecedence(ids, other) != 0
  {
    hide IdOrder, IdPrecedence, ValidIdentifier, Plain, IdText, Counter, IdsOrder, IdsPrecedence, IdTexts;
    var i := FirstMisread(ids);
    var c := Counter(ids[i]);
    other := ids[..i] + [c];
    CounterMisplaced(ids[i]);
    assert ids == ids[..i] + ids[i..];
    SamePrefix(ids[..i], ids[i..], [c]);
    HeadDecides(ids[i..], c);
  }

  ghost predicate Agrees(v: SemVer, w: SemVer) {
    Sign(Order(Written(v), Written(w)), 0) == Precedence(v, w)
  }

  lemma Spoiled(v: SemVer)
    requires Valid(v) && !PlainVersion(v)
    ensures exists w :: Valid(w) && PlainVersion(w) && !Agrees(v, w)
  {
    var w: SemVer;
    hide Order, Written, CoreOrder, IdsOrder, IdsPrecedence, Core, Split, ValidIdentifier, Plain;
    if v.major >= LIMIT {
      w := SemVer(1, 0, 0, [], None);
    } else if v.minor >= LIMIT {
      w := SemVer(v.major, 1, 0, [], None);
    } else if v.patch >= LIMIT {
      w := SemVer(v.major, v.minor, 1, [], None);
    } else {
      var other := IdsSpoiled(v.pre);
      w := v.(pre := other);
    }
    WrittenOrder(v, w);
    CoreRead(v, w);
  }

  /** A valid version is ordered as section 11 says against every plain valid version exactly when it is
      plain itself. */
  lemma AgreesExactly(v: SemVer)
    requires Valid(v)
    ensures PlainVersion(v) <==> forall w :: Valid(w) && PlainVersion(w) ==> Agrees(v, w)
  {
    hide Valid, PlainVersion, Order, Written, Precedence;
    if PlainVersion(v) {
      forall w | Valid(w) && PlainVersion(w) ensures Agrees(v, w) {
        AgreesWithSemVer(v, w);
      }
    } else {
      Spoiled(v);
    }
  }

  // ----- the order in plain words -----

  /** Section 11 says that `x` is lower: numbers by value, texts by their first differing character, and a
      number below a text. */
  ghost predicate IdBelow(x: Identifier, y: Identifier) {
    match (x, y)
    case (Numeric(n), Numeric(m)) => n < m
    case (Numeric(_), Alphanumeric(_)) => true
    case (Alphanumeric(_), Numeric(_)) => false
    case (Alphanumeric(s), Alphanumeric(t)) => exists i: nat :: DiffersAt(s, t, i)
  }

  /** The first identifiers that differ decide; if none do, the shorter list is lower. */
  ghost predicate IdsBelowAt(a: seq<Identifier>, b: seq<Identifier>, i: nat) {
    i <= |a| && i < |b| && a[..i] == b[..i] && (i == |a| || IdBelow(a[i], b[i]))
  }

  ghost predicate Lower(v: SemVer, w: SemVer) {
    || v.major < w.major
    || (v.major == w.major && v.minor < w.minor)
    || (v.major == w.major && v.minor == w.minor && v.patch < w.patch)
    || (v.major == w.major && v.minor == w.minor && v.patch == w.patch
        && ((v.pre != [] && w.pre == []) || (v.pre != [] && w.pre != [] && exists i: nat :: IdsBelowAt(v.pre, w.pre, i))))
  }

  lemma IdBelowExactly(x: Identifier, y: Identifier)
    ensures IdPrecedence(x, y) < 0 <==> IdBelow(x, y)
    ensures IdPrecedence(x, y) == 0 <==> x == y
  {
    if x.Alphanumeric? && y.Alphanumeric? {
      BeforeExactly(x.text, y.text);
      BeforeIrreflexive(x.text);
    }
    hide Before;
  }

  lemma {:induction false} IdsBelowExactly(a: seq<Identifier>, b: seq<Identifier>)
    ensures IdsPrecedence(a, b) < 0 <==> exists i: nat :: IdsBelowAt(a, b, i)
  {
    hide IdPrecedence, IdBelow;
    if a == [] || b == [] {
      if |a| < |b| { assert IdsBelowAt(a, b, 0); }
    } else {
      IdBelowExactly(a[0], b[0]);
      IdsBelowExactly(a[1..], b[1..]);
      if i: nat :| IdsBelowAt(a, b, i) {
        if i > 0 {
          assert a[0] == a[..i][0] == b[..i][0] == b[0];
          assert a[1..][..i - 1] == a[..i][1..] && b[1..][..i - 1] == b[..i][1..];
          assert IdsBelowAt(a[1..], b[1..], i - 1);
        }
      }
      if IdsPrecedence(a, b) < 0 {
        if a[0] != b[0] {
          assert IdsBelowAt(a, b, 0);
        } else {
          var i: nat :| IdsBelowAt(a[1..], b[1..], i);
          assert a[..i + 1] == [a[0]] + a[1..][..i] && b[..i + 1] == [b[0]] + b[1..][..i];
          assert IdsBelowAt(a, b, i + 1);
        }
      }
    }
  }

  lemma PrecedenceBelow(v: SemVer, w: SemVer)
    ensures Precedence(v, w) < 0 <==> Lower(v, w)
  {
    hide IdsPrecedence, IdsBelowAt;
    IdsBelowExactly(v.pre, w.pre);
  }

  /** On plain valid versions, one is newer exactly if section 11 says that the other is lower. */
  lemma NewerIsLower(v: SemVer, w: SemVer)
    requires Valid(v) && Valid(w) && PlainVersion(v) && PlainVersion(w)
    ensures Newer(Written(v), Written(w)) <==> Lower(w, v)
  {
    hide Order, Written, Lower, Precedence, Valid, PlainVersion;
    AgreesWithSemVer(w, v);
    Flip(Written(v), Written(w));
    PrecedenceBelow(w, v);
  }

  // ----- strings that are no versions -----

  lemma LeadingV(a: string, b: string)
    requires a == "" || a[0] != 'v'
    ensures Order("v" + a, b) == Order(a, b) && Order(b, "v" + a) == Order(b, a)
  {
    SplitsAfterV(a);
    hide SplitPrerelease, CoreOrder, PrereleaseOrder, Split;
  }

  lemma SplitsAfterV(a: string)
    requires a == "" || a[0] != 'v'
    ensures SplitPrerelease("v" + a) == SplitPrerelease(a)
  {
    hide IndexOf;
    assert ("v" + a)[1..] == a;
  }

  lemma BuildIgnored(a: string, build: string, b: string)
    requires '+' !in a
    ensures Order(a + ['+'] + build, b) == Order(a, b) && Order(b, a + ['+'] + build) == Order(b, a)
  {
    var s := a + ['+'] + build;
    if a != "" && a[0] == 'v' {
      assert s[1..] == a[1..] + ['+'] + build;
      CutAt(a[1..], '+', build);
    } else {
      CutAt(a, '+', build);
    }
    assert SplitPrerelease(s) == SplitPrerelease(a) by { hide IndexOf, Split; }
    hide SplitPrerelease, CoreOrder, PrereleaseOrder, Split;
  }

  /** A core segment counts as its number, and as zero if it is missing or no number of the range. */
  function Counted(parts: seq<string>, i: nat): int {
    if i < |parts| && parts[i] != "" && AllDigits(parts[i]) && Value(parts[i]) < 9223372036854775808 then Value(parts[i]) else 0
  }

  ghost predicate CoreBelowAt(a: seq<string>, b: seq<string>, i: nat) {
    Counted(a, i) < Counted(b, i) && forall j :: 0 <= j < i ==> Counted(a, j) == Counted(b, j)
  }

  predicate Unsigned(parts: seq<string>) {
    forall i :: 0 <= i < |parts| ==> '-' !in parts[i] && '+' !in parts[i]
  }

  lemma SegmentCounted(parts: seq<string>, i: nat)
    requires Unsigned(parts)
    ensures Segment(parts, i) == Counted(parts, i)
  {
    if i < |parts| && parts[i] != "" { assert parts[i][0] in parts[i]; }
  }

  lemma {:induction false} CoreBelowExactly(a: seq<string>, b: seq<string>, k: nat)
    requires Unsigned(a) && Unsigned(b) && forall j :: 0 <= j < k ==> Counted(a, j) == Counted(b, j)
    ensures CoreOrder(a, b, k) < 0 <==> exists i: nat :: CoreBelowAt(a, b, i)
    decreases |a| + |b| - k
  {
    hide Segment, Counted;
    SegmentCounted(a, k);
    SegmentCounted(b, k);
    if k >= |a| && k >= |b| {
      forall i: nat ensures !CoreBelowAt(a, b, i) {
        if i >= k { BothMissing(a, b, i); }
      }
    } else if Counted(a, k) == Counted(b, k) {
      CoreBelowExactly(a, b, k + 1);
    } else if Counted(a, k) < Counted(b, k) {
      assert CoreBelowAt(a, b, k);
    } else {
      forall i: nat ensures !CoreBelowAt(a, b, i) {}
    }
  }

  lemma BothMissing(a: seq<string>, b: seq<string>, i: nat)
    requires i >= |a| && i >= |b|
    ensures Counted(a, i) == Counted(b, i)
  {}

  predicate IsCore(a: string) {
    '-' !in a && '+' !in a && (a != "" ==> a[0] != 'v')
  }

  lemma CoreAlone(a: string)
    requires IsCore(a)
    ensures SplitPrerelease(a) == (a, "") && Unsigned(Split(a, '.'))
  {
    CutAt(a, '+', "");
    CutAt(a, '-', "");
    SplitChars(a, '.', '-');
    SplitChars(a, '.', '+');
    hide IndexOf, Split;
  }

  /** Of two strings without prerelease, build and leading v, however many segments they have and whatever
      these are, the first is newer exactly if the first segment whose count differs counts more in it. */
  lemma CoreDecides(a: string, b: string)
    requires IsCore(a) && IsCore(b)
    ensures Newer(a, b) <==> exists i: nat :: CoreBelowAt(Split(b, '.'), Split(a, '.'), i)
  {
    hide SplitPrerelease, CoreOrder, Split, CoreBelowAt, IsCore, Unsigned, IdsOrder;
    CoreAlone(a);
    CoreAlone(b);
    CoreBelowExactly(Split(b, '.'), Split(a, '.'), 0);
    CoreFlip(Split(a, '.'), Split(b, '.'), 0);
  }

  lemma {:induction false} SplitChars(s: string, c: char, x: char)
    requires x !in s
    ensures forall i :: 0 <= i < |Split(s, c)| ==> x !in Split(s, c)[i]
    decreases |s|
  {
    var i := IndexOf(s, c);
    if i < |s| { SplitChars(s[i + 1..], c, x); }
  }
}
