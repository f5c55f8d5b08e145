/**
 The check of a configured compression against an Accept-Encoding header:
 `isCompressionAcceptEncodingValid` of pkg/config/config.go.

 Qualities are kept as whole thousandths, which is what the code rounds them to. Plain decimal
 numerals are read here; every other spelling `strconv.ParseFloat` may accept is left to the
 parameter `exotic`.
 */
module AcceptEncoding {
  import opened Common
  import opened Digits

  /** `quality` counts thousandths. */
  datatype Entry = Entry(encoding: string, quality: int)

  type NumberReader = string -> Option<real>

  // ----- text -----

  /** White space in the sense of `unicode.IsSpace`. */
  predicate IsSpace(c: char) {
    || c == ' ' || '\U{0009}' <= c <= '\U{000D}' || c == '\U{0085}' || c == '\U{00A0}' || c == '\U{1680}'
    || '\U{2000}' <= c <= '\U{200A}' || c == '\U{2028}' || c == '\U{2029}' || c == '\U{202F}'
    || c == '\U{205F}' || c == '\U{3000}'
  }

  function TrimLeft(s: string): string {
    if s != [] && IsSpace(s[0]) then TrimLeft(s[1..]) else s
  }

  function TrimRight(s: string): string {
    if s != [] && IsSpace(s[|s| - 1]) then TrimRight(s[..|s| - 1]) else s
  }

  function TrimSpace(s: string): string {
    TrimRight(TrimLeft(s))
  }

  function Split(s: string, sep: char): (parts: seq<string>)
    ensures |parts| >= 1
  {
    if s == [] then [[]]
    else
      var rest := Split(s[1..], sep);
      if s[0] == sep then [[]] + rest else [[s[0]] + rest[0]] + rest[1..]
  }

  /** Position of the last `c`, or -1. */
  function LastIndex(s: string, c: char): (i: int)
    ensures -1 <= i < |s|
    ensures i >= 0 ==> s[i] == c
    ensures forall j :: i < j < |s| ==> s[j] != c
  {
    if s == [] then -1
    else if s[|s| - 1] == c then |s| - 1
    else LastIndex(s[..|s| - 1], c)
  }

  function TrimPrefix(s: string, prefix: string): string {
    if prefix <= s then s[|prefix|..] else s
  }

  // ----- numbers -----

  function Pow10(n: nat): (p: nat)
    ensures p > 0
  {
    if n == 0 then 1 else 10 * Pow10(n - 1)
  }

  /** Digits with an optional fraction; at least one digit in all. */
  function Unsigned(s: string): Option<real> {
    var dot := LastIndex(s, '.');
    var whole, frac := if dot < 0 then s else s[..dot], if dot < 0 then [] else s[dot + 1..];
    if AllDigits(whole) && AllDigits(frac) && |whole| + |frac| > 0
    then Some(Value(whole) as real + Value(frac) as real / Pow10(|frac|) as real)
    else None
  }

  function PlainDecimal(s: string): Option<real> {
    if s != [] && s[0] == '-' then
      match Unsigned(s[1..])
      case Some(v) => Some(-v)
      case None => None
    else if s != [] && s[0] == '+' then Unsigned(s[1..])
    else Unsigned(s)
  }

  /** The least magnitude that 32-bit floats round to infinity: 2^128 - 2^103. */
  const FLOAT32_LIMIT: real := 340282356779733661637539395458142568448.0

  /** A plain decimal out of 32-bit range is a range error. */
  function ParseFloat(s: string, exotic: NumberReader): Option<real> {
    match PlainDecimal(s)
    case Some(v) => if -FLOAT32_LIMIT < v < FLOAT32_LIMIT then Some(v) else None
    case None => exotic(s)
  }

  /** `math.Round`: halves away from zero. */
  function Round(x: real): int {
    if x >= 0.0 then (x + 0.5).Floor else -((-x + 0.5).Floor)
  }

  /** An unreadable quality counts as 0. */
  function ParseQuality(s: string, exotic: NumberReader): int {
    match ParseFloat(s, exotic)
    case Some(q) => Round(q * 1000.0)
    case None => 0
  }

  // ----- parsing -----

  function ParsePart(part: string, exotic: NumberReader): Entry {
    var idx := LastIndex(part, ';');
    if idx == -1 then Entry(TrimSpace(part), 1000)
    else Entry(TrimSpace(part[..idx]), ParseQuality(TrimPrefix(TrimSpace(part[idx + 1..]), "q="), exotic))
  }

  function ParseParts(parts: seq<string>, exotic: NumberReader): (es: seq<Entry>)
    ensures |es| == |parts| && forall i :: 0 <= i < |es| ==> es[i] == ParsePart(parts[i], exotic)
  {
    seq(|parts|, i requires 0 <= i < |parts| => ParsePart(parts[i], exotic))
  }

  /** The entries of a header, in header order. */
  function ParseHeader(header: string, exotic: NumberReader): seq<Entry> {
    ParseParts(Split(header, ','), exotic)
  }

  // ----- the stable sort -----

  ghost predicate Descending(s: seq<Entry>) {
    forall i, j :: 0 <= i < j < |s| ==> s[i].quality >= s[j].quality
  }

  /** The entries of one quality, in order. */
  function OfQuality(s: seq<Entry>, q: int): seq<Entry> {
    if s == [] then []
    else OfQuality(s[..|s| - 1], q) + (if s[|s| - 1].quality == q then [s[|s| - 1]] else [])
  }

  /** Same entries, and entries of equal quality in the same order. */
  ghost predicate StablyPermuted(s: seq<Entry>, t: seq<Entry>) {
    forall q :: OfQuality(s, q) == OfQuality(t, q)
  }

  lemma OfQualitySnoc(s: seq<Entry>, e: Entry, t: seq<Entry>, q: int)
    requires t == s + [e]
    ensures OfQuality(t, q) == if e.quality == q then OfQuality(s, q) + [e] else OfQuality(s, q)
  {
    assert t[..|t| - 1] == s;
  }

  lemma Reassociate(x: seq<Entry>, post: seq<Entry>, xf: seq<Entry>, xp: seq<Entry>)
    requires post != [] && xf == x + post[..|post| - 1] && xp == x + post
    ensures xp == xf + [post[|post| - 1]]
  {
  }

  lemma {:induction false} SameAppend(x: seq<Entry>, y: seq<Entry>, post: seq<Entry>,
                                      xp: seq<Entry>, yp: seq<Entry>, q: int)
    requires OfQuality(x, q) == OfQuality(y, q) && xp == x + post && yp == y + post
    ensures OfQuality(xp, q) == OfQuality(yp, q)
    decreases |post|
  {
    if post == [] {
      assert xp == x && yp == y;
    } else {
      var front, e := post[..|post| - 1], post[|post| - 1];
      var xf, yf := x + front, y + front;
      Reassociate(x, post, xf, xp);
      Reassociate(y, post, yf, yp);
      SameAppend(x, y, front, xf, yf, q);
      OfQualitySnoc(xf, e, xp, q);
      OfQualitySnoc(yf, e, yp, q);
    }
  }

  lemma SwapLastTwo(pre: seq<Entry>, a: Entry, b: Entry, x: seq<Entry>, y: seq<Entry>, q: int)
    requires a.quality != b.quality && x == pre + [a, b] && y == pre + [b, a]
    ensures OfQuality(x, q) == OfQuality(y, q)
  {
    var pa, pb := pre + [a], pre + [b];
    OfQualitySnoc(pre, a, pa, q);
    OfQualitySnoc(pa, b, x, q);
    OfQualitySnoc(pre, b, pb, q);
    OfQualitySnoc(pb, a, y, q);
  }

  /** Exchanging neighbours of different quality is stable. */
  lemma SwapKeepsStable(orig: seq<Entry>, s: seq<Entry>, j: nat, t: seq<Entry>)
    requires StablyPermuted(orig, s) && 0 < j < |s| && s[j - 1].quality != s[j].quality
    requires t == s[j - 1 := s[j]][j := s[j - 1]]
    ensures StablyPermuted(orig, t)
  {
    var pre, a, b, post := s[..j - 1], s[j - 1], s[j], s[j + 1..];
    var x, y := pre + [a, b], pre + [b, a];
    assert s == x + post && t == y + post;
    forall q ensures OfQuality(orig, q) == OfQuality(t, q) {
      SwapLastTwo(pre, a, b, x, y, q);
      SameAppend(x, y, post, s, t, q);
    }
  }

  lemma {:induction false} MemberOfQuality(s: seq<Entry>, e: Entry)
    ensures e in s <==> e in OfQuality(s, e.quality)
  {
    if s != [] {
      MemberOfQuality(s[..|s| - 1], e);
      assert s == s[..|s| - 1] + [s[|s| - 1]];
    }
  }

  lemma SameMembers(s: seq<Entry>, t: seq<Entry>, e: Entry)
    requires StablyPermuted(s, t)
    ensures e in s <==> e in t
  {
    MemberOfQuality(s, e);
    MemberOfQuality(t, e);
  }

  /** Insertion by neighbour exchanges, as `sort.SliceStable` sorts a block. */
  method SortStable(a: array<Entry>)
    modifies a
    ensures Descending(a[..]) && StablyPermuted(old(a[..]), a[..])
  {
    for i := 0 to a.Length
      invariant Descending(a[..i]) && StablyPermuted(old(a[..]), a[..])
    {
      Insert(a, i);
    }
    assert a[..a.Length] == a[..];
  }

  method Insert(a: array<Entry>, i: nat)
    requires i < a.Length && Descending(a[..i])
    modifies a
    ensures Descending(a[..i + 1]) && StablyPermuted(old(a[..]), a[..])
  {
    var j := i;
    while j > 0 && a[j - 1].quality < a[j].quality
      invariant 0 <= j <= i
      invariant forall k, l :: 0 <= k < l <= i && l != j ==> a[k].quality >= a[l].quality
      invariant StablyPermuted(old(a[..]), a[..])
    {
      ghost var before := a[..];
      a[j], a[j - 1] := a[j - 1], a[j];
      SwapKeepsStable(old(a[..]), before, j, a[..]);
      j := j - 1;
    }
  }

  // ----- the check -----

  predicate Names(e: Entry, encoding: string) {
    e.encoding == encoding || e.encoding == "*"
  }

  /** Some entry names the encoding, or all encodings, with positive quality. */
  ghost predicate Admits(es: seq<Entry>, encoding: string) {
    exists e :: e in es && Names(e, encoding) && e.quality > 0
  }

  /** Split, parse, stable sort by descending quality, first match: the answer is the plain
      existence of an admitting entry, whatever the order of the header. */
  method IsValid(encoding: string, acceptEncoding: string, exotic: NumberReader) returns (valid: bool)
    ensures valid <==>
      encoding == "" || acceptEncoding == "" || Admits(ParseHeader(acceptEncoding, exotic), encoding)
  {
    if encoding == "" || acceptEncoding == "" {
      return true;
    }
    var encodings := ParseAll(acceptEncoding, exotic);
    var sorted := Sorted(encodings);
    valid := FirstMatch(sorted, encoding);
    assert Admits(sorted, encoding) <==> Admits(encodings, encoding);
  }

  /** The parsing loop. */
  method ParseAll(header: string, exotic: NumberReader) returns (encodings: seq<Entry>)
    ensures encodings == ParseHeader(header, exotic)
  {
    var parts := Split(header, ',');
    encodings := [];
    for i := 0 to |parts|
      invariant encodings == ParseParts(parts[..i], exotic)
    {
      encodings := encodings + [ParsePart(parts[i], exotic)];
    }
    assert parts[..|parts|] == parts;
  }

  /** The final scan: in descending order the first entry with the right name decides. */
  method FirstMatch(encodings: seq<Entry>, encoding: string) returns (valid: bool)
    requires Descending(encodings)
    ensures valid <==> Admits(encodings, encoding)
  {
    for i := 0 to |encodings|
      invariant forall k :: 0 <= k < i ==> !Names(encodings[k], encoding)
    {
      if Names(encodings[i], encoding) {
        assert encodings[i] in encodings;
        return encodings[i].quality > 0;
      }
    }
    return false;
  }

  /** The slice, sorted in place. */
  method Sorted(entries: seq<Entry>) returns (sorted: seq<Entry>)
    ensures Descending(sorted) && StablyPermuted(entries, sorted)
    ensures forall e :: e in entries <==> e in sorted
  {
    var a := new Entry[|entries|](i requires 0 <= i < |entries| => entries[i]);
    assert a[..] == entries;
    SortStable(a);
    sorted := a[..];
    forall e ensures e in entries <==> e in sorted {
      SameMembers(entries, sorted, e);
    }
  }

  // ----- section 12.5.3 of RFC 9110 -----

  ghost predicate Listed(es: seq<Entry>, name: string) {
    exists e :: e in es && e.encoding == name
  }

  ghost predicate ListedPositive(es: seq<Entry>, name: string) {
    exists e :: e in es && e.encoding == name && e.quality > 0
  }

  /** A listed coding is acceptable by its own weight; "*" speaks only for codings not listed;
      identity is acceptable unless excluded. */
  ghost predicate RfcAcceptable(es: seq<Entry>, coding: string) {
    if Listed(es, coding) then ListedPositive(es, coding)
    else if Listed(es, "*") then ListedPositive(es, "*")
    else coding == "identity"
  }

  /** The code agrees with the RFC exactly unless a coding is listed only with weight 0 beside a
      positive "*", or the coding is an unmentioned identity. */
  lemma AgreesWithRfcExactly(es: seq<Entry>, coding: string)
    ensures (Admits(es, coding) <==> RfcAcceptable(es, coding)) <==>
      && !(Listed(es, coding) && !ListedPositive(es, coding) && ListedPositive(es, "*"))
      && !(coding == "identity" && !Listed(es, coding) && !Listed(es, "*"))
  {
    if Admits(es, coding) {
      var e :| e in es && Names(e, coding) && e.quality > 0;
      assert e.encoding == coding || e.encoding == "*";
    }
    if ListedPositive(es, coding) {
      var e :| e in es && e.encoding == coding && e.quality > 0;
      assert Names(e, coding);
    }
    if ListedPositive(es, "*") {
      var e :| e in es && e.encoding == "*" && e.quality > 0;
      assert Names(e, coding);
    }
  }

  // ----- printing and parsing back -----

  /** A weight as text: digits, and at most three decimals behind a point. */
  datatype Weight = Weight(whole: string, frac: Option<string>)

  /** One list element with its optional white space; `named` tells whether its weight has the "q=". */
  datatype Item = Item(coding: string, weight: Option<Weight>, named: bool,
                       before: string, afterCoding: string, beforeWeight: string, after: string)

  ghost predicate AllSpace(s: string) {
    forall i :: 0 <= i < |s| ==> IsSpace(s[i])
  }

  ghost predicate NoSpace(s: string) {
    forall i :: 0 <= i < |s| ==> !IsSpace(s[i])
  }

  ghost predicate Printable(it: Item) {
    && NoSpace(it.coding) && ',' !in it.coding && ';' !in it.coding
    && (it.weight.Some? ==> ValidWeight(it.weight.value) && Thousandths(it.weight.value) <= 1000)
    && AllSpace(it.before) && AllSpace(it.afterCoding) && AllSpace(it.beforeWeight) && AllSpace(it.after)
  }

  ghost predicate ValidWeight(w: Weight) {
    && AllDigits(w.whole) && w.whole != []
    && (w.frac.Some? ==> AllDigits(w.frac.value) && |w.frac.value| <= 3)
  }

  /** Up to three decimals in thousandths. */
  function ThousandthsOf(f: string): nat
    requires AllDigits(f) && |f| <= 3
  {
    if |f| == 0 then 0 else if |f| == 1 then 100 * Value(f) else if |f| == 2 then 10 * Value(f) else Value(f)
  }

  /** The weight in thousandths. */
  ghost function Thousandths(w: Weight): nat
    requires ValidWeight(w)
  {
    1000 * Value(w.whole) +
      match w.frac
      case None => 0
      case Some(f) => ThousandthsOf(f)
  }

  function PrintWeight(w: Weight): string {
    match w.frac case None => w.whole case Some(f) => w.whole + ['.'] + f
  }

  function WeightText(it: Item, w: Weight): string {
    (if it.named then "q=" else "") + PrintWeight(w)
  }

  function Head(it: Item): string {
    it.before + it.coding + it.afterCoding
  }

  function Tail(it: Item, w: Weight): string {
    it.beforeWeight + WeightText(it, w) + it.after
  }

  function PrintItem(it: Item): string {
    match it.weight
    case None => Head(it) + it.after
    case Some(w) => Head(it) + [';'] + Tail(it, w)
  }

  ghost function PrintHeader(items: seq<Item>): string
    requires items != [] && forall i :: 0 <= i < |items| ==> Printable(items[i])
  {
    assert Printable(items[0]);
    if |items| == 1 then PrintItem(items[0])
    else PrintItem(items[0]) + [','] + PrintHeader(items[1..])
  }

  ghost function Meaning(it: Item): Entry
    requires Printable(it)
  {
    Entry(it.coding, match it.weight case None => 1000 case Some(w) => Thousandths(w))
  }

  lemma {:induction false} TrimLeftPad(pad: string, s: string)
    requires AllSpace(pad) && (s == [] || !IsSpace(s[0]))
    ensures TrimLeft(pad + s) == s
  {
    if pad == [] {
      assert pad + s == s;
    } else {
      TrimLeftPad(pad[1..], s);
      assert (pad + s)[1..] == pad[1..] + s;
    }
  }

  lemma {:induction false} TrimRightPad(s: string, pad: string)
    requires AllSpace(pad) && (s == [] || !IsSpace(s[|s| - 1]))
    ensures TrimRight(s + pad) == s
  {
    if pad == [] {
      assert s + pad == s;
    } else {
      TrimRightPad(s, pad[..|pad| - 1]);
      assert (s + pad)[..|s + pad| - 1] == s + pad[..|pad| - 1];
    }
  }

  lemma TrimPads(a: string, s: string, b: string)
    requires AllSpace(a) && AllSpace(b) && NoSpace(s)
    ensures TrimSpace(a + s + b) == s
  {
    if s == [] {
      assert a + s + b == a + b + [];
      assert AllSpace(a + b);
      TrimLeftPad(a + b, []);
      assert TrimRight([]) == [];
    } else {
      assert a + s + b == a + (s + b);
      TrimLeftPad(a, s + b);
      TrimRightPad(s, b);
    }
  }

  lemma {:induction false} LastIndexAt(s: string, t: string, c: char)
    requires c !in t
    ensures LastIndex(s + [c] + t, c) == |s|
  {
    var whole, i := s + [c] + t, LastIndex(s + [c] + t, c);
    assert whole[|s|] == c;
    forall k | |s| < k < |whole| ensures whole[k] != c {
      assert whole[k] == t[k - |s| - 1];
    }
  }

  lemma LastIndexNone(s: string, c: char)
    requires c !in s
    ensures LastIndex(s, c) == -1
  {
  }

  lemma {:induction false} WholeAndFraction(whole: string, frac: string)
    requires AllDigits(whole) && AllDigits(frac) && whole != []
    ensures PlainDecimal(whole + ['.'] + frac)
      == Some(Value(whole) as real + Value(frac) as real / Pow10(|frac|) as real)
  {
    var s := whole + ['.'] + frac;
    LastIndexAt(whole, frac, '.');
    assert s[..|whole|] == whole && s[|whole| + 1..] == frac;
    assert s[0] == whole[0] && IsDigit(whole[0]);
  }

  lemma {:induction false} WholeOnly(whole: string)
    requires AllDigits(whole) && whole != []
    ensures PlainDecimal(whole) == Some(Value(whole) as real)
  {
    assert '.' !in whole by {
      assert forall i :: 0 <= i < |whole| ==> IsDigit(whole[i]);
    }
    LastIndexNone(whole, '.');
    assert IsDigit(whole[0]);
    assert Pow10(0) == 1 && Value([]) == 0;
  }

  lemma PowersOfTen()
    ensures Pow10(0) == 1 && Pow10(1) == 10 && Pow10(2) == 100 && Pow10(3) == 1000
  {
    assert Pow10(1) == 10 * Pow10(0) && Pow10(2) == 10 * Pow10(1) && Pow10(3) == 10 * Pow10(2);
  }

  lemma {:induction false} DecimalsAre(f: string)
    requires AllDigits(f) && |f| <= 3
    ensures Value(f) as real / Pow10(|f|) as real == ThousandthsOf(f) as real / 1000.0
  {
    PowersOfTen();
    Thousandfold(Value(f));
    if |f| == 0 {
      assert Value(f) == 0;
    }
  }

  lemma Thousandfold(n: nat)
    ensures n as real / 10.0 == (100 * n) as real / 1000.0 && n as real / 100.0 == (10 * n) as real / 1000.0
  {
    assert (100 * n) as real == 100.0 * n as real && (10 * n) as real == 10.0 * n as real;
  }

  lemma AddThousandths(a: nat, b: nat)
    ensures a as real + b as real / 1000.0 == (1000 * a + b) as real / 1000.0
  {
  }

  lemma {:induction false} FractionIs(whole: string, f: string)
    requires AllDigits(whole) && whole != [] && AllDigits(f) && |f| <= 3
    ensures PlainDecimal(whole + ['.'] + f) == Some((1000 * Value(whole) + ThousandthsOf(f)) as real / 1000.0)
  {
    WholeAndFraction(whole, f);
    DecimalsAre(f);
    AddThousandths(Value(whole), ThousandthsOf(f));
  }

  lemma {:induction false} WholeIs(whole: string)
    requires AllDigits(whole) && whole != []
    ensures PlainDecimal(whole) == Some((1000 * Value(whole)) as real / 1000.0)
  {
    WholeOnly(whole);
    AddThousandths(Value(whole), 0);
  }

  lemma {:induction false} WeightIs(w: Weight)
    requires ValidWeight(w)
    ensures PlainDecimal(PrintWeight(w)) == Some(Thousandths(w) as real / 1000.0)
  {
    match w.frac
    case None => WholeIs(w.whole);
    case Some(f) => FractionIs(w.whole, f);
  }

  /** A weight of up to three decimals is read back exactly. */
  lemma {:induction false} WeightRoundTrip(w: Weight, exotic: NumberReader)
    requires ValidWeight(w) && Thousandths(w) <= 1000
    ensures ParseQuality(PrintWeight(w), exotic) == Thousandths(w)
  {
    WeightIs(w);
    var n := Thousandths(w);
    RoundWhole(n);
    assert n as real / 1000.0 * 1000.0 == n as real && n as real / 1000.0 <= 1.0;
  }

  /** Any readable quality is rounded to the nearest thousandth, ties away from zero. */
  lemma QualityIsNearest(s: string, exotic: NumberReader)
    requires ParseFloat(s, exotic).Some?
    ensures var v, q := 1000.0 * ParseFloat(s, exotic).value, ParseQuality(s, exotic) as real;
      if v >= 0.0 then q - 0.5 <= v < q + 0.5 else q - 0.5 < v <= q + 0.5
  {
  }

  /** A number from 2^128 - 2^103 on is out of the 32-bit range; like any unreadable weight it counts 0. */
  lemma {:induction false} HugeWeightIsZero(whole: string, exotic: NumberReader)
    requires AllDigits(whole) && whole != []
    ensures Value(whole) >= 0x1_0000_0000_0000_0000 * 0x1_0000_0000_0000_0000 - 0x80_0000_0000_0000_0000_0000_0000
      ==> ParseQuality(whole, exotic) == 0
    ensures Value(whole) < 0x1_0000_0000_0000_0000 * 0x1_0000_0000_0000_0000 - 0x80_0000_0000_0000_0000_0000_0000
      ==> ParseQuality(whole, exotic) == 1000 * Value(whole)
  {
    WholeOnly(whole);
    RoundWhole(1000 * Value(whole));
  }

  /** A sign is read: a weight behind "-" counts negative, and one behind "+" as it stands. */
  lemma {:induction false} SignedWeights(w: Weight, exotic: NumberReader)
    requires ValidWeight(w) && Thousandths(w) <= 1000
    ensures ParseQuality(['-'] + PrintWeight(w), exotic) + Thousandths(w) == 0
    ensures ParseQuality(['+'] + PrintWeight(w), exotic) == Thousandths(w)
  {
    WeightIs(w);
    var t, n := PrintWeight(w), Thousandths(w);
    assert t != [] && t[0] == w.whole[0] && IsDigit(t[0]);
    assert (['-'] + t)[1..] == t && (['+'] + t)[1..] == t;
    assert n as real / 1000.0 * 1000.0 == n as real && n as real / 1000.0 <= 1.0;
    RoundWhole(n);
    RoundNegative(n);
  }

  lemma RoundNegative(n: nat)
    ensures Round(-(n as real)) + n == 0
  {
    assert (n as real + 0.5).Floor == n;
  }

  /** An element whose weight cannot be read admits nothing. */
  lemma {:induction false} UnreadableRefuses(head: string, tail: string, exotic: NumberReader)
    requires ';' !in tail
    requires ParseFloat(TrimPrefix(TrimSpace(tail), "q="), exotic).None?
    ensures ParsePart(head + [';'] + tail, exotic) == Entry(TrimSpace(head), 0)
  {
    ParseWeighted(head, tail, exotic);
  }

  lemma RoundWhole(n: nat)
    ensures Round(n as real) == n
  {
    assert (n as real + 0.5).Floor == n;
  }

  lemma {:induction false} WeightChars(it: Item, w: Weight)
    requires ValidWeight(w)
    ensures var t := WeightText(it, w); NoSpace(t) && ',' !in t && ';' !in t && t != []
  {
    var t := WeightText(it, w);
    forall i | 0 <= i < |t| ensures !IsSpace(t[i]) && t[i] != ',' && t[i] != ';' {
      assert t[i] == 'q' || t[i] == '=' || t[i] == '.' || IsDigit(t[i]);
    }
  }

  lemma SpaceFree(s: string)
    requires AllSpace(s)
    ensures ',' !in s && ';' !in s
  {
  }

  lemma ParseWeighted(head: string, tail: string, exotic: NumberReader)
    requires ';' !in tail
    ensures ParsePart(head + [';'] + tail, exotic)
      == Entry(TrimSpace(head), ParseQuality(TrimPrefix(TrimSpace(tail), "q="), exotic))
  {
    var part := head + [';'] + tail;
    LastIndexAt(head, tail, ';');
    assert part[..|head|] == head && part[|head| + 1..] == tail;
  }

  lemma ParseWeightless(part: string, exotic: NumberReader)
    requires ';' !in part
    ensures ParsePart(part, exotic) == Entry(TrimSpace(part), 1000)
  {
    LastIndexNone(part, ';');
  }

  lemma ItemChars(it: Item)
    requires Printable(it)
    ensures ',' !in PrintItem(it)
    ensures ';' !in Head(it) + it.after
    ensures it.weight.Some? ==> ';' !in Tail(it, it.weight.value)
  {
    SpaceFree(it.before);
    SpaceFree(it.afterCoding);
    SpaceFree(it.beforeWeight);
    SpaceFree(it.after);
    if it.weight.Some? {
      WeightChars(it, it.weight.value);
    }
  }

  lemma {:induction false} TailQuality(it: Item, w: Weight, exotic: NumberReader)
    requires Printable(it) && it.weight == Some(w)
    ensures ParseQuality(TrimPrefix(TrimSpace(Tail(it, w)), "q="), exotic) == Thousandths(w)
  {
    var t := WeightText(it, w);
    WeightChars(it, w);
    TrimPads(it.beforeWeight, t, it.after);
    if it.named {
      assert t[2..] == PrintWeight(w);
    } else {
      assert t == PrintWeight(w) && t[0] == w.whole[0] && IsDigit(t[0]);
    }
    WeightRoundTrip(w, exotic);
  }

  lemma HeadCoding(it: Item)
    requires Printable(it)
    ensures TrimSpace(Head(it)) == it.coding && TrimSpace(Head(it) + it.after) == it.coding
  {
    TrimPads(it.before, it.coding, it.afterCoding);
    TrimPads(it.before, it.coding, it.afterCoding + it.after);
    assert Head(it) + it.after == it.before + it.coding + (it.afterCoding + it.after);
  }

  /** One printed element parses to its meaning, with or without white space and weight. */
  lemma PartRoundTrip(it: Item, exotic: NumberReader)
    requires Printable(it)
    ensures ParsePart(PrintItem(it), exotic) == Meaning(it) && ',' !in PrintItem(it)
  {
    ItemChars(it);
    HeadCoding(it);
    match it.weight {
      case None =>
        ParseWeightless(Head(it) + it.after, exotic);
      case Some(w) =>
        ParseWeighted(Head(it), Tail(it, w), exotic);
        TailQuality(it, w, exotic);
    }
  }

  lemma {:induction false} SplitOne(s: string, sep: char)
    requires sep !in s
    ensures Split(s, sep) == [s]
  {
    if s != [] {
      SplitOne(s[1..], sep);
      assert [s[0]] + s[1..] == s;
    }
  }

  lemma {:induction false} SplitFirst(s: string, rest: string, sep: char)
    requires sep !in s
    ensures Split(s + [sep] + rest, sep) == [s] + Split(rest, sep)
  {
    var all := s + [sep] + rest;
    if s == [] {
      assert all[1..] == rest;
    } else {
      SplitFirst(s[1..], rest, sep);
      assert [s[0]] + s[1..] == s;
      assert all[1..] == s[1..] + [sep] + rest;
    }
  }

  /** Optional white space and codings as section 5.6 of RFC 9110 has them, spaces and tabs around token
      characters, can be printed. */
  lemma RfcItemPrintable(it: Item)
    requires forall c :: c in it.before || c in it.afterCoding || c in it.beforeWeight || c in it.after ==> c in " \t"
    requires forall c :: c in it.coding ==>
      c in "!#$%&'*+-.^_`|~" || '0' <= c <= '9' || 'a' <= c <= 'z' || 'A' <= c <= 'Z'
    requires it.weight.Some? ==> ValidWeight(it.weight.value) && Thousandths(it.weight.value) <= 1000
    ensures Printable(it)
  {
    forall i | 0 <= i < |it.coding| ensures !IsSpace(it.coding[i]) && it.coding[i] != ',' && it.coding[i] != ';' {
      assert it.coding[i] in it.coding;
      TokenChar(it.coding[i]);
    }
    SpacesAndTabs(it.before);
    SpacesAndTabs(it.afterCoding);
    SpacesAndTabs(it.beforeWeight);
    SpacesAndTabs(it.after);
  }

  lemma TokenChar(c: char)
    requires c in "!#$%&'*+-.^_`|~" || '0' <= c <= '9' || 'a' <= c <= 'z' || 'A' <= c <= 'Z'
    ensures !IsSpace(c) && c != ',' && c != ';'
  {
  }

  lemma SpacesAndTabs(s: string)
    requires forall c :: c in s ==> c in " \t"
    ensures AllSpace(s)
  {
    forall i | 0 <= i < |s| ensures IsSpace(s[i]) {
      assert s[i] in s;
    }
  }

  /** Parsing undoes printing: any list of codings free of commas, semicolons and white space, with any
      weights of up to three decimals, with or without "q=", or none, and any optional white space. */
  lemma {:induction false} HeaderRoundTrip(items: seq<Item>, exotic: NumberReader)
    requires items != [] && forall i :: 0 <= i < |items| ==> Printable(items[i])
    ensures |ParseHeader(PrintHeader(items), exotic)| == |items|
    ensures forall i :: 0 <= i < |items| ==> ParseHeader(PrintHeader(items), exotic)[i] == Meaning(items[i])
    decreases |items|
  {
    PartRoundTrip(items[0], exotic);
    if |items| == 1 {
      SplitOne(PrintItem(items[0]), ',');
    } else {
      HeaderRoundTrip(items[1..], exotic);
      HeaderCons(PrintItem(items[0]), PrintHeader(items[1..]), exotic);
    }
  }

  lemma HeaderCons(part: string, rest: string, exotic: NumberReader)
    requires ',' !in part
    ensures ParseHeader(part + [','] + rest, exotic) == [ParsePart(part, exotic)] + ParseHeader(rest, exotic)
  {
    SplitFirst(part, rest, ',');
  }

  /** A header on which code and RFC part ways, for every coding but "*": refused by name,
      admitted through "*". */
  lemma RefusedCodingAdmitted(coding: string, exotic: NumberReader) returns (header: string)
    requires NoSpace(coding) && ',' !in coding && ';' !in coding && coding != "*"
    ensures Admits(ParseHeader(header, exotic), coding) && !RfcAcceptable(ParseHeader(header, exotic), coding)
  {
    var items := [Item(coding, Some(Weight("0", None)), true, "", "", "", ""), Item("*", None, true, " ", "", "", "")];
    TenDigits('0');
    assert ["0123456789"[0]] == "0";
    assert Printable(items[0]) && Printable(items[1]);
    header := PrintHeader(items);
    HeaderRoundTrip(items, exotic);
    var es := ParseHeader(header, exotic);
    assert es[0] == Entry(coding, 0) && es[1] == Entry("*", 1000);
    RefusedByNameOnly(es, coding);
  }

  lemma RefusedByNameOnly(es: seq<Entry>, coding: string)
    requires |es| == 2 && es[0] == Entry(coding, 0) && es[1] == Entry("*", 1000) && coding != "*"
    ensures Admits(es, coding) && !RfcAcceptable(es, coding)
  {
    assert es[0] in es && es[1] in es;
    AgreesWithRfcExactly(es, coding);
  }
}
