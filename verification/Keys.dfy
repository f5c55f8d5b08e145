/**
 Composite keys: `JoinKey` and `SplitKey` of pkg/util/util.go.

 Every map, cache entry and eviction of the server is addressed by a joined key. The separator
 is the rune U+00FE, which a Go string holds as two bytes, so a key is modelled as bytes.
 */
module Keys {
  import opened Common

  newtype byte = x: int | 0 <= x < 256
  type Str = seq<byte>

  const SEP: Str := [0xC3, 0xBE]

  /** The bytes of a text of one-byte characters. */
  function Ascii(text: string): (s: Str)
    requires forall i :: 0 <= i < |text| ==> text[i] as int < 128
    ensures |s| == |text| && forall i :: 0 <= i < |s| ==> s[i] as int == text[i] as int
  {
    seq(|text|, i requires 0 <= i < |text| => text[i] as int as byte)
  }

  predicate SepAt(s: Str, i: int) {
    0 <= i && i + 1 < |s| && s[i] == SEP[0] && s[i + 1] == SEP[1]
  }

  /** No occurrence of the separator. */
  ghost predicate SepFree(s: Str) {
    forall i :: !SepAt(s, i)
  }

  ghost predicate AllSepFree(ks: seq<Str>) {
    forall i :: 0 <= i < |ks| ==> SepFree(ks[i])
  }

  /** Leftmost occurrence of the separator. */
  function Index(s: Str): (r: Option<nat>)
    ensures r.None? ==> SepFree(s)
    ensures r.Some? ==> SepAt(s, r.value) && forall j :: j < r.value ==> !SepAt(s, j)
  {
    if |s| < 2 then None
    else if SepAt(s, 0) then Some(0)
    else
      assert forall j :: SepAt(s, j) <==> SepAt(s[1..], j - 1) || (j == 0 && SepAt(s, 0));
      match Index(s[1..])
      case None => None
      case Some(i) => Some(i + 1)
  }

  /** `strings.Join` with the separator. */
  function JoinKey(ks: seq<Str>): Str {
    if |ks| == 0 then []
    else if |ks| == 1 then ks[0]
    else ks[0] + SEP + JoinKey(ks[1..])
  }

  /** `strings.Split` on the separator: leftmost, non-overlapping occurrences. */
  function SplitKey(s: Str): (parts: seq<Str>)
    ensures |parts| >= 1
    decreases |s|
  {
    match Index(s)
    case None => [s]
    case Some(i) => [s[..i]] + SplitKey(s[i + 2..])
  }

  /** The join puts the two bytes C3 BE, the rune U+00FE, between any two neighbours. */
  lemma {:induction false} JoinSnoc(ks: seq<Str>, k: Str)
    ensures JoinKey(ks + [k]) == if ks == [] then k else JoinKey(ks) + [0xC3, 0xBE] + k
  {
    if |ks| == 0 {
      assert ks + [k] == [k];
    } else if |ks| == 1 {
      assert (ks + [k])[1..] == [k];
    } else {
      JoinSnoc(ks[1..], k);
      assert (ks + [k])[1..] == ks[1..] + [k];
    }
  }

  /** Splitting loses nothing: the pieces always join back to the key. */
  lemma {:induction false} JoinUndoesSplit(s: Str)
    ensures JoinKey(SplitKey(s)) == s
    decreases |s|
  {
    match Index(s)
    case None =>
    case Some(i) =>
      JoinUndoesSplit(s[i + 2..]);
      assert SplitKey(s)[1..] == SplitKey(s[i + 2..]);
      assert s == s[..i] + SEP + s[i + 2..];
  }

  /** Every piece of a split is separator-free. */
  lemma {:induction false} PiecesSepFree(s: Str)
    ensures AllSepFree(SplitKey(s))
    decreases |s|
  {
    match Index(s)
    case None =>
    case Some(i) =>
      PiecesSepFree(s[i + 2..]);
      forall j ensures !SepAt(s[..i], j) {
        assert SepAt(s[..i], j) ==> SepAt(s, j);
      }
  }

  /** Behind a separator-free piece the first separator found is the one that was inserted:
      the two bytes differ, so no occurrence straddles the boundary. */
  lemma FirstSeparator(k: Str, rest: Str)
    requires SepFree(k)
    ensures Index(k + SEP + rest) == Some(|k|)
  {
    var s := k + SEP + rest;
    assert SepAt(s, |k|);
    forall j | j < |k| ensures !SepAt(s, j) {
      assert !SepAt(k, j);
      assert j == |k| - 1 ==> s[j + 1] == SEP[0];
    }
  }

  lemma SplitFirstPiece(k: Str, rest: Str)
    requires SepFree(k)
    ensures SplitKey(k + SEP + rest) == [k] + SplitKey(rest)
  {
    var s := k + SEP + rest;
    FirstSeparator(k, rest);
    assert s[..|k|] == k && s[|k| + 2..] == rest;
  }

  lemma {:induction false} SplitUndoesJoin(ks: seq<Str>)
    requires ks != [] && AllSepFree(ks)
    ensures SplitKey(JoinKey(ks)) == ks
  {
    assert SepFree(ks[0]);
    if |ks| > 1 {
      SplitFirstPiece(ks[0], JoinKey(ks[1..]));
      SplitUndoesJoin(ks[1..]);
      assert ks == [ks[0]] + ks[1..];
    }
  }

  /** The round trip holds exactly for non-empty lists of separator-free pieces. */
  lemma RoundTripExactly(ks: seq<Str>)
    ensures SplitKey(JoinKey(ks)) == ks <==> ks != [] && AllSepFree(ks)
  {
    PiecesSepFree(JoinKey(ks));
    if ks != [] && AllSepFree(ks) {
      SplitUndoesJoin(ks);
    }
  }

  /** Distinct lists, of any lengths, get distinct keys. */
  lemma JoinInjective(a: seq<Str>, b: seq<Str>)
    requires a != [] && AllSepFree(a) && b != [] && AllSepFree(b)
    requires JoinKey(a) == JoinKey(b)
    ensures a == b
  {
    SplitUndoesJoin(a);
    SplitUndoesJoin(b);
  }

  /** The (region, ip) pair an eviction callback reads back from a key. */
  function Target(key: Str): (Str, Str)
    requires |SplitKey(key)| >= 2
  {
    (SplitKey(key)[0], SplitKey(key)[1])
  }

  /** Any two-piece key splits into at least two pieces, so the callback's indexing is safe;
      it reads back the pair it was built from exactly when both pieces are separator-free. */
  lemma PairTarget(region: Str, ip: Str)
    ensures |SplitKey(JoinKey([region, ip]))| >= 2
    ensures Target(JoinKey([region, ip])) == (region, ip) <==> SepFree(region) && SepFree(ip)
  {
    var key := JoinKey([region, ip]);
    assert [region, ip][1..] == [ip];
    assert JoinKey([ip]) == ip;
    assert key == region + SEP + ip;
    assert SepAt(key, |region|);
    var parts := SplitKey(key);
    PiecesSepFree(key);
    if SepFree(region) && SepFree(ip) {
      RoundTripExactly([region, ip]);
    }
    if parts[0] == region && parts[1] == ip {
      assert SepFree(parts[0]) && SepFree(parts[1]);
    }
  }
}
