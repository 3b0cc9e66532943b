/** Form bodies (application/x-www-form-urlencoded, without percent-decoding) and the extractor the
    web UI reads them with. */
module FormBody {
  /** `string_view::find`: the first place `needle` occurs, or -1. */
  function Find(s: string, needle: string): (pos: int)
    ensures pos == -1 || 0 <= pos <= pos + |needle| <= |s|
  {
    if needle <= s then 0
    else if s == "" then -1
    else
      var r := Find(s[1..], needle);
      if r < 0 then -1 else r + 1
  }

  /** The part before the first '&'. */
  function UpToAmp(s: string): string {
    if s == "" || s[0] == '&' then "" else [s[0]] + UpToAmp(s[1..])
  }

  /** What the web UI reads for a key; empty if it finds none. */
  function Extract(body: string, key: string): string {
    ReadAt(body, Find(body, key + "="), |key + "="|)
  }

  /** The value after a needle of length `n` found at `pos`, if it starts a pair there. */
  function ReadAt(body: string, pos: int, n: nat): string
    requires pos == -1 || 0 <= pos <= pos + n <= |body|
  {
    if pos == -1 then ""
    else if pos != 0 && body[pos - 1] != '&' then ""
    else UpToAmp(body[pos + n..])
  }

  /** The looser reading used for the match action: no check that the needle starts a pair. */
  function ExtractAnywhere(body: string, key: string): string {
    ReadFrom(body, Find(body, key + "="), |key + "="|)
  }

  function ReadFrom(body: string, pos: int, n: nat): string
    requires pos == -1 || 0 <= pos <= pos + n <= |body|
  {
    if pos == -1 then "" else UpToAmp(body[pos + n..])
  }

  // ---- Finding -------------------------------------------------------------------------------

  predicate OccursAt(s: string, needle: string, i: int) {
    0 <= i && i + |needle| <= |s| && s[i..i + |needle|] == needle
  }

  lemma {:induction false} FindIsFirst(s: string, needle: string)
    ensures Find(s, needle) >= 0 ==> OccursAt(s, needle, Find(s, needle))
    ensures forall i :: 0 <= i && (Find(s, needle) < 0 || i < Find(s, needle)) ==> !OccursAt(s, needle, i)
  {
    if needle <= s {
      assert s[0..|needle|] == needle;
    } else if s != "" {
      FindIsFirst(s[1..], needle);
      var r := Find(s[1..], needle);
      forall i ensures OccursAt(s, needle, i) <==> i > 0 && OccursAt(s[1..], needle, i - 1) {
        if i == 0 && |needle| <= |s| {
          assert s[0..|needle|] == s[..|needle|];
        } else if i > 0 && i + |needle| <= |s| {
          assert s[1..][i - 1..i - 1 + |needle|] == s[i..i + |needle|];
        }
      }
    }
  }

  lemma FindUnique(s: string, needle: string, pos: int)
    requires pos >= 0 ==> OccursAt(s, needle, pos)
    requires forall i :: 0 <= i && (pos < 0 || i < pos) ==> !OccursAt(s, needle, i)
    ensures Find(s, needle) == if pos < 0 then -1 else pos
  {
    FindIsFirst(s, needle);
  }

  // ---- Bodies --------------------------------------------------------------------------------

  datatype Pair = Pair(key: string, value: string)

  /** Free of the two separators. */
  predicate Clean(s: string) {
    forall i :: 0 <= i < |s| ==> s[i] != '&' && s[i] != '='
  }

  predicate CleanPairs(ps: seq<Pair>) {
    forall p <- ps :: Clean(p.key) && Clean(p.value)
  }

  function Render(ps: seq<Pair>): string {
    if ps == [] then ""
    else
      var head := ps[0].key + "=" + ps[0].value;
      if |ps| == 1 then head else head + "&" + Render(ps[1..])
  }

  predicate EndsWith(s: string, end: string) {
    |end| <= |s| && s[|s| - |end|..] == end
  }

  lemma NeedleAt(s: string, key: string, i: int, j: nat)
    requires OccursAt(s, key + "=", i) && j <= |key|
    ensures s[i + j] == if j < |key| then key[j] else '='
  {
    assert s[i..i + |key + "="|][j] == s[i + j];
  }

  /** An occurrence ends with the only "=" of the first pair or lies past that pair. */
  lemma OccurrenceEnds(k: string, v: string, tail: string, key: string, i: int)
    requires Clean(k) && Clean(v) && Clean(key) && (tail == "" || tail[0] == '&')
    requires OccursAt(k + "=" + v + tail, key + "=", i)
    ensures i + |key| == |k| || i >= |k| + 1 + |v|
  {
    var body, off := k + "=" + v + tail, |k| + 1 + |v|;
    NeedleAt(body, key, i, |key|);
    if i + |key| != |k| && i < off {
      assert i + |key| >= off;
      if i <= |k| {
        NeedleAt(body, key, i, |k| - i);
      } else {
        NeedleAt(body, key, i, off - i);
      }
      assert false;
    }
  }

  lemma OccurrenceAtKeyEnd(k: string, v: string, tail: string, key: string)
    requires |key| <= |k|
    ensures OccursAt(k + "=" + v + tail, key + "=", |k| - |key|) <==> EndsWith(k, key)
  {
    var body, i := k + "=" + v + tail, |k| - |key|;
    assert body[i..i + |key + "="|] == k[i..] + "=";
    assert (k[i..] + "=")[..|key|] == k[i..] && (key + "=")[..|key|] == key;
  }

  lemma OccurrencePast(head: string, tail: string, needle: string, i: int)
    requires i >= |head|
    ensures OccursAt(head + tail, needle, i) <==> OccursAt(tail, needle, i - |head|)
  {
    if i + |needle| <= |head + tail| {
      assert (head + tail)[i..i + |needle|] == tail[i - |head|..i - |head| + |needle|];
    }
  }

  /** The needle occurs in a body only at the end of a key. */
  lemma OccurrenceIsKeyEnd(k: string, v: string, tail: string, key: string, i: int)
    requires Clean(k) && Clean(v) && Clean(key) && (tail == "" || tail[0] == '&')
    ensures OccursAt(k + "=" + v + tail, key + "=", i) <==>
              || (i == |k| - |key| && EndsWith(k, key))
              || OccursAt(tail, key + "=", i - |k| - 1 - |v|)
  {
    if OccursAt(k + "=" + v + tail, key + "=", i) {
      OccurrenceEnds(k, v, tail, key, i);
    }
    if i == |k| - |key| && i >= 0 {
      OccurrenceAtKeyEnd(k, v, tail, key);
    } else if i >= |k| + 1 + |v| {
      OccurrencePast(k + "=" + v, tail, key + "=", i);
    }
  }

  lemma OccurrenceInTail(rest: string, key: string, j: int)
    requires Clean(key)
    ensures OccursAt("&" + rest, key + "=", j) <==> OccursAt(rest, key + "=", j - 1)
  {
    var tail, needle := "&" + rest, key + "=";
    assert needle[0] != '&';
    if 0 <= j && j + |needle| <= |tail| {
      assert tail[j..j + |needle|][0] == tail[j];
      if j > 0 {
        assert tail[j..j + |needle|] == rest[j - 1..j - 1 + |needle|];
      }
    }
  }

  lemma FindAtKeyEnd(k: string, v: string, tail: string, key: string)
    requires Clean(k) && Clean(v) && Clean(key) && (tail == "" || tail[0] == '&') && EndsWith(k, key)
    ensures Find(k + "=" + v + tail, key + "=") == |k| - |key|
  {
    var body, pos := k + "=" + v + tail, |k| - |key|;
    forall i ensures OccursAt(body, key + "=", i) <==>
                       i == pos || OccursAt(tail, key + "=", i - |k| - 1 - |v|) {
      OccurrenceIsKeyEnd(k, v, tail, key, i);
    }
    FindUnique(body, key + "=", pos);
  }

  lemma FindInPairAlone(k: string, v: string, key: string)
    requires Clean(k) && Clean(v) && Clean(key) && !EndsWith(k, key)
    ensures Find(k + "=" + v, key + "=") == -1
  {
    var alone, needle := k + "=" + v, key + "=";
    assert alone + "" == alone;
    forall i ensures !OccursAt(alone, needle, i) {
      OccurrenceIsKeyEnd(k, v, "", key, i);
    }
    FindUnique(alone, needle, -1);
  }

  lemma FindPastPair(k: string, v: string, rest: string, key: string)
    requires Clean(k) && Clean(v) && Clean(key) && !EndsWith(k, key)
    ensures var r := Find(rest, key + "=");
      Find(k + "=" + v + ("&" + rest), key + "=") == if r == -1 then -1 else |k + "=" + v| + 1 + r
  {
    var needle, off := key + "=", |k + "=" + v| + 1;
    var body, r := k + "=" + v + ("&" + rest), Find(rest, needle);
    forall i ensures OccursAt(body, needle, i) <==> OccursAt(rest, needle, i - off) {
      OccurrenceIsKeyEnd(k, v, "&" + rest, key, i);
      OccurrenceInTail(rest, key, i - |k| - 1 - |v|);
    }
    FindIsFirst(rest, needle);
    FindUnique(body, needle, if r == -1 then -1 else off + r);
  }

  /** A value ends at the next '&' or with the body; an '=' is part of it. */
  lemma {:induction false} UpToAmpOf(v: string, tail: string)
    requires '&' !in v && (tail == "" || tail[0] == '&')
    ensures UpToAmp(v + tail) == v
  {
    if v == "" {
      assert v + tail == tail;
    } else {
      assert (v + tail)[1..] == v[1..] + tail;
      UpToAmpOf(v[1..], tail);
    }
  }

  // ---- What the extractor reads from a rendered body -----------------------------------------

  /** The value of the first pair whose key ends with `key`, or nothing if that key is longer. */
  function FirstEnding(ps: seq<Pair>, key: string): string {
    if ps == [] then ""
    else if !EndsWith(ps[0].key, key) then FirstEnding(ps[1..], key)
    else if ps[0].key == key then ps[0].value
    else ""
  }

  lemma {:induction false} ExtractIsFirstEnding(ps: seq<Pair>, key: string)
    requires CleanPairs(ps) && Clean(key)
    ensures Extract(Render(ps), key) == FirstEnding(ps, key)
  {
    if ps != [] {
      var p, rest := ps[0], Render(ps[1..]);
      var head := p.key + "=" + p.value;
      assert p in ps && CleanPairs(ps[1..]);
      if EndsWith(p.key, key) {
        assert Render(ps) == head + (if |ps| == 1 then "" else "&" + rest);
        ExtractAtKeyEnd(p.key, p.value, if |ps| == 1 then "" else "&" + rest, key);
      } else if |ps| == 1 {
        FindInPairAlone(p.key, p.value, key);
      } else {
        assert Render(ps) == head + ("&" + rest);
        ExtractPastPair(p.key, p.value, rest, key);
        ExtractIsFirstEnding(ps[1..], key);
      }
    }
  }

  lemma ExtractAtKeyEnd(k: string, v: string, tail: string, key: string)
    requires Clean(k) && Clean(v) && Clean(key) && (tail == "" || tail[0] == '&') && EndsWith(k, key)
    ensures Extract(k + "=" + v + tail, key) == if k == key then v else ""
  {
    FindAtKeyEnd(k, v, tail, key);
    ReadAtKeyEnd(k, v, tail, key);
  }

  lemma ExtractPastPair(k: string, v: string, rest: string, key: string)
    requires Clean(k) && Clean(v) && Clean(key) && !EndsWith(k, key)
    ensures Extract(k + "=" + v + ("&" + rest), key) == Extract(rest, key)
  {
    FindPastPair(k, v, rest, key);
    if Find(rest, key + "=") != -1 {
      ReadPastPair(k + "=" + v, rest, Find(rest, key + "="), |key + "="|);
    }
  }

  lemma ReadAtKeyEnd(k: string, v: string, tail: string, key: string)
    requires Clean(k) && Clean(v) && (tail == "" || tail[0] == '&') && EndsWith(k, key)
    ensures ReadAt(k + "=" + v + tail, |k| - |key|, |key| + 1) == if k == key then v else ""
  {
    var body, pos := k + "=" + v + tail, |k| - |key|;
    if pos == 0 {
      assert body[|key| + 1..] == v + tail;
      UpToAmpOf(v, tail);
    } else {
      assert body[pos - 1] == k[pos - 1];
    }
  }

  lemma ReadPastPair(head: string, rest: string, r: nat, n: nat)
    requires r + n <= |rest|
    ensures ReadAt(head + ("&" + rest), |head| + 1 + r, n) == ReadAt(rest, r, n)
  {
    var body, pos := head + ("&" + rest), |head| + 1 + r;
    assert body[pos - 1] == if r == 0 then '&' else rest[r - 1];
    assert body[pos + n..] == rest[r + n..];
  }

  /** The value of the first pair whose key ends with `key`. */
  function FirstEndingAny(ps: seq<Pair>, key: string): string {
    if ps == [] then "" else if EndsWith(ps[0].key, key) then ps[0].value else FirstEndingAny(ps[1..], key)
  }

  lemma {:induction false} ExtractAnywhereIsFirstEnding(ps: seq<Pair>, key: string)
    requires CleanPairs(ps) && Clean(key)
    ensures ExtractAnywhere(Render(ps), key) == FirstEndingAny(ps, key)
  {
    if ps != [] {
      var p, rest := ps[0], Render(ps[1..]);
      var head := p.key + "=" + p.value;
      assert p in ps && CleanPairs(ps[1..]);
      if EndsWith(p.key, key) {
        assert Render(ps) == head + (if |ps| == 1 then "" else "&" + rest);
        AnywhereAtKeyEnd(p.key, p.value, if |ps| == 1 then "" else "&" + rest, key);
      } else if |ps| == 1 {
        FindInPairAlone(p.key, p.value, key);
      } else {
        assert Render(ps) == head + ("&" + rest);
        AnywherePastPair(p.key, p.value, rest, key);
        ExtractAnywhereIsFirstEnding(ps[1..], key);
      }
    }
  }

  lemma AnywhereAtKeyEnd(k: string, v: string, tail: string, key: string)
    requires Clean(k) && Clean(v) && Clean(key) && (tail == "" || tail[0] == '&') && EndsWith(k, key)
    ensures ExtractAnywhere(k + "=" + v + tail, key) == v
  {
    FindAtKeyEnd(k, v, tail, key);
    assert (k + "=" + v + tail)[|k| + 1..] == v + tail;
    UpToAmpOf(v, tail);
  }

  lemma AnywherePastPair(k: string, v: string, rest: string, key: string)
    requires Clean(k) && Clean(v) && Clean(key) && !EndsWith(k, key)
    ensures ExtractAnywhere(k + "=" + v + ("&" + rest), key) == ExtractAnywhere(rest, key)
  {
    FindPastPair(k, v, rest, key);
    if Find(rest, key + "=") != -1 {
      FromPastPair(k + "=" + v, rest, Find(rest, key + "="), |key + "="|);
    }
  }

  lemma FromPastPair(head: string, rest: string, r: nat, n: nat)
    requires r + n <= |rest|
    ensures ReadFrom(head + ("&" + rest), |head| + 1 + r, n) == ReadFrom(rest, r, n)
  {
    assert (head + ("&" + rest))[|head| + 1 + r + n..] == rest[r + n..];
  }

  // ---- Against splitting on '&' and then on '=' ----------------------------------------------

  /** The value of the first pair with exactly this key. */
  function Lookup(ps: seq<Pair>, key: string): string {
    if ps == [] then "" else if ps[0].key == key then ps[0].value else Lookup(ps[1..], key)
  }

  /** A longer key ending with `key` comes before the first pair that carries it. */
  predicate Shadowed(ps: seq<Pair>, key: string) {
    ps != [] && ps[0].key != key
    && if EndsWith(ps[0].key, key) then Lookup(ps[1..], key) != "" else Shadowed(ps[1..], key)
  }

  /** The extractor reads what splitting would read exactly when no longer key with the same
      ending comes first. */
  lemma {:induction false} ExtractIsLookupIffNotShadowed(ps: seq<Pair>, key: string)
    requires CleanPairs(ps) && Clean(key)
    ensures Extract(Render(ps), key) == Lookup(ps, key) <==> !Shadowed(ps, key)
  {
    ExtractIsFirstEnding(ps, key);
    FirstEndingIsLookup(ps, key);
  }

  lemma {:induction false} FirstEndingIsLookup(ps: seq<Pair>, key: string)
    ensures FirstEnding(ps, key) == Lookup(ps, key) <==> !Shadowed(ps, key)
  {
    if ps != [] {
      FirstEndingIsLookup(ps[1..], key);
      assert ps[0].key == key ==> EndsWith(ps[0].key, key);
    }
  }

  /** A key that merely ends in "mode" hides the mode setting after it. */
  lemma ShadowedExample()
    ensures var ps := [Pair("opmode", "1"), Pair("mode", "2")];
      && Render(ps) == "opmode=1&mode=2" && Lookup(ps, "mode") == "2"
      && Extract("opmode=1&mode=2", "mode") == ""
  {
    var ps := [Pair("opmode", "1"), Pair("mode", "2")];
    assert ps[1..] == [Pair("mode", "2")];
    assert Render(ps[1..]) == "mode=2";
    assert Render(ps) == "opmode=1&mode=2";
    assert "opmode"[2..] == "mode";
    ExtractIsFirstEnding(ps, "mode");
  }
}
