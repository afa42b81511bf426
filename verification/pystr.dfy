/** The few Python `str` operations the authentication code relies on:
    `sep.join(parts)`, `s.split(sep)`, `s.rstrip(c)` and `s.startswith(p)`,
    over strings modelled as `seq<char>`. */
module PyStr {
  import opened Wrappers

  /** `pat` occurs in `s` starting at index `i`. */
  predicate OccursAt(s: string, pat: string, i: nat)
  {
    i + |pat| <= |s| && s[i..i + |pat|] == pat
  }

  /** Python's `pat in s`. */
  predicate Contains(s: string, pat: string)
  {
    exists i: nat | i <= |s| :: OccursAt(s, pat, i)
  }

  /** Python's `s.startswith(prefix)`: a case-sensitive prefix test. */
  predicate StartsWith(s: string, prefix: string)
    ensures StartsWith(s, prefix) <==> OccursAt(s, prefix, 0)
  {
    prefix <= s
  }

  /** Total length of the parts. */
  function TotalLength(parts: seq<string>): nat
  {
    if |parts| == 0 then 0 else |parts[0]| + TotalLength(parts[1..])
  }

  /** Python's `sep.join(parts)`: the parts in order, one separator between
      each two neighbours and none at either end. */
  function Join(sep: string, parts: seq<string>): (r: string)
    ensures |parts| == 0 ==> r == ""
    decreases |parts|
  {
    if |parts| == 0 then ""
    else if |parts| == 1 then parts[0]
    else parts[0] + sep + Join(sep, parts[1..])
  }

  /** Joining one more part appends the separator and that part. */
  lemma {:induction false} JoinSnoc(sep: string, parts: seq<string>, x: string)
    requires |parts| > 0
    ensures Join(sep, parts + [x]) == Join(sep, parts) + sep + x
    decreases |parts|
  {
    if |parts| == 1 {
      assert parts + [x] == [parts[0], x];
      assert ([parts[0], x])[1..] == [x];
    } else {
      assert (parts + [x])[1..] == parts[1..] + [x];
      JoinSnoc(sep, parts[1..], x);
    }
  }

  /** The joined string is as long as all the parts plus one separator
      between each two neighbours. */
  lemma {:induction false} JoinLength(sep: string, parts: seq<string>)
    requires |parts| > 0
    ensures |Join(sep, parts)| == TotalLength(parts) + (|parts| - 1) * |sep|
    decreases |parts|
  {
    if |parts| > 1 {
      JoinLength(sep, parts[1..]);
      assert Join(sep, parts) == parts[0] + sep + Join(sep, parts[1..]);
      assert (|parts| - 1) * |sep| == |sep| + (|parts| - 2) * |sep|;
    }
  }

  /** The joined string starts with the first part and ends with the last. */
  lemma {:induction false} JoinEnds(sep: string, parts: seq<string>)
    requires |parts| > 0
    ensures parts[0] <= Join(sep, parts)
    ensures |parts[|parts| - 1]| <= |Join(sep, parts)|
    ensures Join(sep, parts)[|Join(sep, parts)| - |parts[|parts| - 1]|..] == parts[|parts| - 1]
    decreases |parts|
  {
    if |parts| > 1 {
      JoinEnds(sep, parts[1..]);
      var last := parts[|parts| - 1];
      var rest := Join(sep, parts[1..]);
      var r := Join(sep, parts);
      assert r == parts[0] + sep + rest;
      assert parts[1..][|parts[1..]| - 1] == last;
      assert r[|r| - |last|..] == rest[|rest| - |last|..];
    }
  }

  /** Leftmost occurrence of `pat` in `s` at or after `i`. */
  function FindFrom(s: string, pat: string, i: nat): (r: Option<nat>)
    ensures r.Some? ==> i <= r.value && OccursAt(s, pat, r.value)
    ensures r.Some? ==> forall j: nat :: i <= j < r.value ==> !OccursAt(s, pat, j)
    ensures r.None? ==> forall j: nat :: i <= j ==> !OccursAt(s, pat, j)
    decreases |s| - i
  {
    if i + |pat| > |s| then None
    else if OccursAt(s, pat, i) then Some(i)
    else FindFrom(s, pat, i + 1)
  }

  /** Python's `s.find(pat)`, with `None` for `-1`. */
  function Find(s: string, pat: string): (r: Option<nat>)
    ensures r.Some? ==> OccursAt(s, pat, r.value)
    ensures r.Some? ==> forall j: nat :: j < r.value ==> !OccursAt(s, pat, j)
    ensures r.None? ==> !Contains(s, pat)
  {
    FindFrom(s, pat, 0)
  }

  /** An occurrence inside a prefix of `s` is an occurrence in `s`. */
  lemma OccursInPrefix(s: string, pat: string, k: nat, j: nat)
    requires k <= |s|
    requires OccursAt(s[..k], pat, j)
    ensures OccursAt(s, pat, j)
  {
  }

  /** Python's `s.split(sep)` for a non-empty separator: cut at each
      leftmost, non-overlapping occurrence of `sep`, scanning left to right. */
  function Split(s: string, sep: string): (parts: seq<string>)
    requires |sep| > 0
    ensures |parts| > 0
    ensures Join(sep, parts) == s
    ensures forall k :: 0 <= k < |parts| ==> !Contains(parts[k], sep)
    decreases |s|
  {
    match Find(s, sep)
    case None => [s]
    case Some(k) =>
      var rest := Split(s[k + |sep|..], sep);
      assert ([s[..k]] + rest)[1..] == rest;
      assert s == s[..k] + sep + s[k + |sep|..] by {
        assert s[k..k + |sep|] == sep;
      }
      assert !Contains(s[..k], sep) by {
        forall j: nat | OccursAt(s[..k], sep, j)
          ensures false
        {
          OccursInPrefix(s, sep, k, j);
        }
      }
      [s[..k]] + rest
  }

  /** Python's `s.rstrip(c)` for a one-character strip set. */
  function RStrip(s: string, c: char): (r: string)
    ensures r <= s
    ensures |r| == 0 || r[|r| - 1] != c
    ensures forall i :: |r| <= i < |s| ==> s[i] == c
    decreases |s|
  {
    if |s| > 0 && s[|s| - 1] == c then RStrip(s[..|s| - 1], c) else s
  }

  /** Appending copies of the stripped character does not change the result. */
  lemma {:induction false} RStripIgnoresPadding(s: string, pad: string, c: char)
    requires forall i :: 0 <= i < |pad| ==> pad[i] == c
    ensures RStrip(s + pad, c) == RStrip(s, c)
    decreases |pad|
  {
    if |pad| > 0 {
      var shorter := pad[..|pad| - 1];
      assert (s + pad)[..|s + pad| - 1] == s + shorter;
      RStripIgnoresPadding(s, shorter, c);
    } else {
      assert s + pad == s;
    }
  }

  /** Splitting what `Join` produced gives the parts back, when no part
      holds a character of the separator. */
  lemma {:induction false} SplitJoin(sep: string, parts: seq<string>)
    requires |sep| > 0 && |parts| > 0
    requires forall k, i :: 0 <= k < |parts| && 0 <= i < |parts[k]| ==> parts[k][i] !in sep
    ensures Split(Join(sep, parts), sep) == parts
    decreases |parts|
  {
    var s := Join(sep, parts);
    if |parts| == 1 {
      forall j: nat | j <= |s|
        ensures !OccursAt(s, sep, j)
      {
        assert j < |s| ==> s[j] == parts[0][j];
      }
    } else {
      var p := parts[0];
      var rest := Join(sep, parts[1..]);
      assert s == p + sep + rest;
      assert OccursAt(s, sep, |p|) by {
        assert s[|p|..|p| + |sep|] == sep;
      }
      forall j: nat | j < |p|
        ensures !OccursAt(s, sep, j)
      {
        assert s[j] == p[j];
      }
      assert Find(s, sep) == Some(|p|);
      assert s[|p| + |sep|..] == rest;
      SplitJoin(sep, parts[1..]);
      assert s[..|p|] == p;
    }
  }
}
