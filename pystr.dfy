/**
 * The parts of Python's `str` and `os.path` (POSIX) behaviour that the
 * primer pipeline relies on, each written out as Python computes it.
 */
module PyStr {

  // ------------------------------------------------------------------
  // Searching

  /** `sub` occurs in `s` starting at index `i`. */
  predicate OccursAt(s: string, sub: string, i: int) {
    0 <= i && i + |sub| <= |s| && s[i..i + |sub|] == sub
  }

  /** Python's `sub in s`. */
  predicate Contains(s: string, sub: string) {
    exists i :: 0 <= i <= |s| && OccursAt(s, sub, i)
  }

  /** Python's `s.startswith(prefix)`. */
  predicate StartsWith(s: string, prefix: string) {
    OccursAt(s, prefix, 0)
  }

  /** Python's `s.endswith(suffix)`. */
  predicate EndsWith(s: string, suffix: string) {
    OccursAt(s, suffix, |s| - |suffix|)
  }

  /** Python's `s.find(sub, k)` for a non-empty `sub`: the leftmost occurrence at or after `k`, or -1. */
  function FindFrom(s: string, sub: string, k: nat): (i: int)
    requires |sub| > 0 && k <= |s|
    ensures i == -1 || (k <= i && OccursAt(s, sub, i))
    ensures forall j :: k <= j && (i == -1 || j < i) ==> !OccursAt(s, sub, j)
    decreases |s| - k
  {
    if k + |sub| > |s| then -1
    else if s[k..k + |sub|] == sub then k
    else FindFrom(s, sub, k + 1)
  }

  /** Python's `s.find(sub)`. */
  function Find(s: string, sub: string): (i: int)
    requires |sub| > 0
    ensures i == -1 || OccursAt(s, sub, i)
    ensures forall j :: 0 <= j && (i == -1 || j < i) ==> !OccursAt(s, sub, j)
  {
    FindFrom(s, sub, 0)
  }

  /** Python's `s.count(sub)` for a non-empty `sub`: occurrences found scanning from the left, never overlapping. */
  function Count(s: string, sub: string): nat
    requires |sub| > 0
    decreases |s|
  {
    var i := Find(s, sub);
    if i < 0 then 0 else 1 + Count(s[i + |sub|..], sub)
  }

  /** Python's `s.rfind(c)` for a single character. */
  function RFind(s: string, c: char): (i: int)
    ensures -1 <= i < |s|
    ensures i >= 0 ==> s[i] == c
    ensures forall j :: i < j < |s| ==> s[j] != c
  {
    if |s| == 0 then -1
    else if s[|s| - 1] == c then |s| - 1
    else RFind(s[..|s| - 1], c)
  }

  /** An occurrence in a suffix of `s` is an occurrence in `s`, shifted by where the suffix starts. */
  lemma OccursInSuffix(s: string, sub: string, off: nat)
    requires off <= |s|
    ensures forall j :: 0 <= j ==> (OccursAt(s[off..], sub, j) <==> OccursAt(s, sub, off + j))
  {
    forall j | 0 <= j
      ensures OccursAt(s[off..], sub, j) <==> OccursAt(s, sub, off + j)
    {
      if j + |sub| <= |s| - off {
        assert s[off..][j..j + |sub|] == s[off + j..off + j + |sub|];
      }
    }
  }

  /** A one-character pattern occurs exactly where that character stands. */
  lemma OccursSingle(s: string, c: char)
    ensures forall j :: OccursAt(s, [c], j) <==> 0 <= j < |s| && s[j] == c
  {
    forall j | 0 <= j < |s|
      ensures s[j..j + 1] == [s[j]]
    {
    }
  }

  lemma {:induction false} CountPositiveIffContains(s: string, sub: string)
    requires |sub| > 0
    ensures Count(s, sub) > 0 <==> Contains(s, sub)
  {
    var f := Find(s, sub);
    if f >= 0 {
      assert OccursAt(s, sub, f);
    }
  }

  /** One occurrence in a suffix of `s` is an occurrence in `s`, shifted by where the suffix starts. */
  lemma OccursInSuffixAt(s: string, sub: string, off: nat, j: nat)
    requires off <= |s|
    ensures OccursAt(s[off..], sub, j) <==> OccursAt(s, sub, off + j)
  {
    if j + |sub| <= |s| - off {
      assert s[off..][j..j + |sub|] == s[off + j..off + j + |sub|];
    }
  }

  /** A count above zero is one for the first occurrence plus the count after it. */
  lemma CountStep(s: string, sub: string)
    requires |sub| > 0 && Count(s, sub) > 0
    ensures 0 <= Find(s, sub) <= |s| - |sub|
    ensures Count(s, sub) == 1 + Count(s[Find(s, sub) + |sub|..], sub)
  {
  }

  /** An occurrence after index `k` is the first one of the suffix from `k`, shifted by `k`. */
  lemma OccurrenceAfter(s: string, sub: string, k: nat)
    requires |sub| > 0 && k <= |s| && Count(s[k..], sub) > 0
    ensures Find(s[k..], sub) >= 0 && OccursAt(s, sub, k + Find(s[k..], sub))
  {
    var rest := s[k..];
    CountStep(rest, sub);
    OccursInSuffixAt(s, sub, k, Find(rest, sub));
  }

  /** The occurrence that `s.count(sub)` finds first is the leftmost one. */
  lemma {:induction false} CountAboveOneGivesTwo(s: string, sub: string) returns (i: int, j: int)
    requires |sub| > 0 && Count(s, sub) > 1
    ensures OccursAt(s, sub, i) && i + |sub| <= j && OccursAt(s, sub, j)
  {
    CountStep(s, sub);
    i := Find(s, sub);
    OccurrenceAfter(s, sub, i + |sub|);
    j := i + |sub| + Find(s[i + |sub|..], sub);
  }

  lemma {:induction false} TwoGiveCountAboveOne(s: string, sub: string, i: int, j: int)
    requires |sub| > 0 && OccursAt(s, sub, i) && i + |sub| <= j && OccursAt(s, sub, j)
    ensures Count(s, sub) > 1
  {
    CountPositiveIffContains(s, sub);
    CountStep(s, sub);
    var f := Find(s, sub);
    assert f <= i;
    var rest := s[f + |sub|..];
    OccursInSuffixAt(s, sub, f + |sub|, j - f - |sub|);
    assert Contains(rest, sub);
    CountPositiveIffContains(rest, sub);
  }

  /**
   * `s.count(sub) > 1` exactly when `s` holds two occurrences of `sub`
   * that do not overlap.
   */
  lemma CountAboveOneIffTwoDisjoint(s: string, sub: string)
    requires |sub| > 0
    ensures Count(s, sub) > 1 <==>
            exists i, j :: OccursAt(s, sub, i) && i + |sub| <= j && OccursAt(s, sub, j)
  {
    if Count(s, sub) > 1 {
      var i, j := CountAboveOneGivesTwo(s, sub);
    }
    if exists i, j :: OccursAt(s, sub, i) && i + |sub| <= j && OccursAt(s, sub, j) {
      var i, j :| OccursAt(s, sub, i) && i + |sub| <= j && OccursAt(s, sub, j);
      TwoGiveCountAboveOne(s, sub, i, j);
    }
  }

  // ------------------------------------------------------------------
  // Slicing

  /** Python's `s[-n:]` for a positive `n`: the last `n` characters, or all of `s` when it is shorter. */
  function LastChars(s: string, n: nat): (r: string)
    requires n > 0
    ensures |r| == if |s| < n then |s| else n
    ensures EndsWith(s, r)
  {
    if |s| <= n then s else s[|s| - n..]
  }

  /** Python's `s[1:-1]`: everything but the first and the last character. */
  function Interior(s: string): (r: string)
    ensures |s| >= 2 ==> s == [s[0]] + r + [s[|s| - 1]]
    ensures |s| < 2 ==> r == ""
  {
    if |s| < 2 then "" else s[1..|s| - 1]
  }

  // ------------------------------------------------------------------
  // Split and join

  /** Python's `s.split(sep)` for a non-empty separator. */
  function Split(s: string, sep: string): (parts: seq<string>)
    requires |sep| > 0
    ensures |parts| >= 1
    decreases |s|
  {
    var i := Find(s, sep);
    if i < 0 then [s] else [s[..i]] + Split(s[i + |sep|..], sep)
  }

  /** Python's `sep.join(parts)`. */
  function Join(parts: seq<string>, sep: string): string {
    if |parts| == 0 then ""
    else if |parts| == 1 then parts[0]
    else parts[0] + sep + Join(parts[1..], sep)
  }

  /** Joining the pieces of a split with the same separator gives back the string. */
  lemma {:induction false} JoinSplit(s: string, sep: string)
    requires |sep| > 0
    ensures Join(Split(s, sep), sep) == s
    decreases |s|
  {
    var i := Find(s, sep);
    if i >= 0 {
      var rest := s[i + |sep|..];
      var tail := Split(rest, sep);
      assert Split(s, sep) == [s[..i]] + tail;
      JoinSplit(rest, sep);
      assert ([s[..i]] + tail)[1..] == tail;
      assert Join([s[..i]] + tail, sep) == s[..i] + sep + Join(tail, sep);
      assert s[i..i + |sep|] == sep;
      assert s == s[..i] + s[i..i + |sep|] + rest;
    }
  }

  lemma FindAbsent(s: string, c: char)
    requires c !in s
    ensures Find(s, [c]) == -1
  {
    OccursSingle(s, c);
  }

  lemma FindAfter(a: string, c: char, b: string)
    requires c !in a
    ensures Find(a + [c] + b, [c]) == |a|
  {
    var s := a + [c] + b;
    OccursSingle(s, c);
    assert forall j :: 0 <= j < |a| ==> s[j] == a[j];
    assert s[|a|] == c;
  }

  /** Splitting on a one-character separator that no part contains undoes the join. */
  lemma {:induction false} SplitJoin(parts: seq<string>, c: char)
    requires |parts| >= 1
    requires forall k :: 0 <= k < |parts| ==> c !in parts[k]
    ensures Split(Join(parts, [c]), [c]) == parts
  {
    if |parts| == 1 {
      FindAbsent(parts[0], c);
    } else {
      var rest := Join(parts[1..], [c]);
      var s := parts[0] + [c] + rest;
      assert Join(parts, [c]) == s;
      FindAfter(parts[0], c, rest);
      assert s[..|parts[0]|] == parts[0];
      assert s[|parts[0]| + 1..] == rest;
      SplitJoin(parts[1..], c);
      assert parts == [parts[0]] + parts[1..];
    }
  }

  /** A character in neither the separator nor any part is not in the join. */
  lemma {:induction false} NotInJoin(parts: seq<string>, sep: string, c: char)
    requires c !in sep && forall k :: 0 <= k < |parts| ==> c !in parts[k]
    ensures c !in Join(parts, sep)
  {
    if |parts| > 1 {
      NotInJoin(parts[1..], sep, c);
    }
  }

  /** A join starts with its first part and ends with its last one. */
  lemma {:induction false} JoinEnds(parts: seq<string>, sep: string)
    requires |parts| >= 1
    ensures StartsWith(Join(parts, sep), parts[0])
    ensures EndsWith(Join(parts, sep), parts[|parts| - 1])
  {
    if |parts| > 1 {
      JoinEnds(parts[1..], sep);
      var rest := Join(parts[1..], sep);
      var s := parts[0] + sep + rest;
      assert s[|s| - |rest|..] == rest;
      assert s[..|parts[0]|] == parts[0];
    }
  }

  /** Joining one more part at the end appends the separator and that part. */
  lemma {:induction false} JoinSnoc(parts: seq<string>, last: string, sep: string)
    requires |parts| >= 1
    ensures Join(parts + [last], sep) == Join(parts, sep) + sep + last
  {
    if |parts| > 1 {
      assert (parts + [last])[1..] == parts[1..] + [last];
      JoinSnoc(parts[1..], last, sep);
    } else {
      assert (parts + [last])[1..] == [last];
    }
  }

  /** A split on a character that occurs: the piece before its first occurrence, then the split of the rest. */
  lemma SplitFirst(x: string, c: char)
    requires Find(x, [c]) >= 0
    ensures Split(x, [c]) == [x[..Find(x, [c])]] + Split(x[Find(x, [c]) + 1..], [c])
  {
  }

  /** The first occurrence of `c` in `a` stays the first one whatever follows `a`. */
  lemma FindInPrefix(a: string, c: char, t: string)
    requires Find(a, [c]) >= 0
    ensures Find(a + t, [c]) == Find(a, [c])
  {
    OccursSingle(a, c);
    OccursSingle(a + t, c);
    var i := Find(a, [c]);
    assert forall j :: 0 <= j <= i ==> (a + t)[j] == a[j];
  }

  /** Splitting `a + c + b` when neither side holds `c` gives the two sides. */
  lemma SplitOnce(a: string, c: char, b: string)
    requires c !in a && c !in b
    ensures Split(a + [c] + b, [c]) == [a, b]
    ensures Split(a, [c]) == [a]
  {
    var s := a + [c] + b;
    FindAfter(a, c, b);
    SplitFirst(s, c);
    assert s[..|a|] == a;
    assert s[|a| + 1..] == b;
    FindAbsent(b, c);
    FindAbsent(a, c);
  }

  /** Cutting `a + c + b` around index `i` of `a`. */
  lemma SlicesOfAppend(a: string, c: char, b: string, i: nat)
    requires i < |a|
    ensures (a + [c] + b)[..i] == a[..i]
    ensures (a + [c] + b)[i + 1..] == a[i + 1..] + [c] + b
    ensures a + [c] + b == a + ([c] + b)
  {
  }

  /** The step of `SplitAppend`: when `a` holds `c`, both splits begin with the same first piece. */
  lemma SplitAppendStep(a: string, c: char, b: string)
    requires Find(a, [c]) >= 0
    requires var i := Find(a, [c]);
             Split(a[i + 1..] + [c] + b, [c]) == Split(a[i + 1..], [c]) + [b]
    ensures Split(a + [c] + b, [c]) == Split(a, [c]) + [b]
  {
    var i := Find(a, [c]);
    var s := a + [c] + b;
    var rest := a[i + 1..];
    SlicesOfAppend(a, c, b, i);
    FindInPrefix(a, c, [c] + b);
    assert Find(s, [c]) == i;
    SplitFirst(s, c);
    assert Split(s, [c]) == [a[..i]] + Split(rest + [c] + b, [c]);
    SplitFirst(a, c);
    assert Split(a, [c]) == [a[..i]] + Split(rest, [c]);
    ConsSnoc(a[..i], Split(rest, [c]), b);
  }

  lemma ConsSnoc<T>(x: T, ys: seq<T>, z: T)
    ensures [x] + (ys + [z]) == ([x] + ys) + [z]
  {
  }

  /** Appending `c` and a `c`-free tail adds exactly one last piece to the split. */
  lemma {:induction false} SplitAppend(a: string, c: char, b: string)
    requires c !in b
    ensures Split(a + [c] + b, [c]) == Split(a, [c]) + [b]
    decreases |a|
  {
    var i := Find(a, [c]);
    if i < 0 {
      OccursSingle(a, c);
      SplitOnce(a, c, b);
    } else {
      SplitAppend(a[i + 1..], c, b);
      SplitAppendStep(a, c, b);
    }
  }

  /** The pieces of a split, except the last, joined back: `sep.join(s.split(sep)[:-1])`. */
  function DropLastPiece(s: string, sep: string): string
    requires |sep| > 0
  {
    var parts := Split(s, sep);
    Join(parts[..|parts| - 1], sep)
  }

  /** Removing the last `_`-separated piece of `name + "_" + suffix` gives back `name`. */
  lemma DropLastPieceOfAppend(name: string, c: char, suffix: string)
    requires c !in suffix
    ensures DropLastPiece(name + [c] + suffix, [c]) == name
  {
    SplitAppend(name, c, suffix);
    var parts := Split(name + [c] + suffix, [c]);
    assert parts[..|parts| - 1] == Split(name, [c]);
    JoinSplit(name, [c]);
  }

  /** When the separator occurs in `a + sep + b` only between `a` and `b`, the split has exactly these two pieces. */
  lemma SplitAtOnlyOccurrence(a: string, sep: string, b: string)
    requires |sep| > 0
    requires forall j :: OccursAt(a + sep + b, sep, j) ==> j == |a|
    ensures Split(a + sep + b, sep) == [a, b]
  {
    var s := a + sep + b;
    assert OccursAt(s, sep, |a|) by { assert s[|a|..|a| + |sep|] == sep; }
    assert Find(s, sep) == |a|;
    assert s[..|a|] == a;
    assert s[|a| + |sep|..] == b;
    var k := Find(b, sep);
    if k >= 0 {
      assert OccursAt(s, sep, |a| + |sep| + k) by {
        assert s[|a| + |sep| + k..|a| + |sep| + k + |sep|] == b[k..k + |sep|];
      }
    }
  }

  /** `s.split(sep)[0]`: when `sep` first occurs in `a + sep + rest` right after `a`, the first piece is `a`. */
  lemma FirstPieceBeforeMarker(a: string, sep: string, rest: string)
    requires |sep| > 0
    requires forall j :: 0 <= j < |a| ==> !OccursAt(a + sep + rest, sep, j)
    ensures Split(a + sep + rest, sep)[0] == a
  {
    var s := a + sep + rest;
    assert OccursAt(s, sep, |a|) by { assert s[|a|..|a| + |sep|] == sep; }
    assert Find(s, sep) == |a|;
    assert s[..|a|] == a;
  }

  // ------------------------------------------------------------------
  // Whitespace

  /** Python 2's `str.isspace` for one byte: space, tab, newline, vertical tab, form feed, carriage return. */
  predicate IsSpace(c: char) {
    c == ' ' || ('\t' <= c <= '\r')
  }

  /** Neither end of `s` is whitespace. */
  predicate IsStripped(s: string) {
    s == "" || (!IsSpace(s[0]) && !IsSpace(s[|s| - 1]))
  }

  /** The length of the whitespace run that starts `s`. */
  function LeadingSpace(s: string): (n: nat)
    ensures n <= |s|
    ensures forall k :: 0 <= k < n ==> IsSpace(s[k])
    ensures n == |s| || !IsSpace(s[n])
  {
    if |s| > 0 && IsSpace(s[0]) then 1 + LeadingSpace(s[1..]) else 0
  }

  /** The length of the whitespace run that ends `s`. */
  function TrailingSpace(s: string): (n: nat)
    ensures n <= |s|
    ensures forall k :: |s| - n <= k < |s| ==> IsSpace(s[k])
    ensures n == |s| || !IsSpace(s[|s| - n - 1])
  {
    if |s| > 0 && IsSpace(s[|s| - 1]) then 1 + TrailingSpace(s[..|s| - 1]) else 0
  }

  /** Python's `s.lstrip()`. */
  function StripLeft(s: string): (r: string)
    ensures |r| <= |s| && r == s[|s| - |r|..]
    ensures forall k :: 0 <= k < |s| - |r| ==> IsSpace(s[k])
    ensures r == "" || !IsSpace(r[0])
  {
    s[LeadingSpace(s)..]
  }

  /** Python's `s.rstrip()`. */
  function StripRight(s: string): (r: string)
    ensures |r| <= |s| && r == s[..|r|]
    ensures forall k :: |r| <= k < |s| ==> IsSpace(s[k])
    ensures r == "" || !IsSpace(r[|r| - 1])
  {
    s[..|s| - TrailingSpace(s)]
  }

  /**
   * Python's `s.strip()`: the result is `s` with exactly its leading and
   * trailing whitespace removed, so it has none at either end, and a
   * string with none there is left as it is.
   */
  function Strip(s: string): (r: string)
    ensures IsStripped(r) && |r| <= |s|
    ensures LeadingSpace(s) + |r| <= |s|
    ensures forall k :: 0 <= k < |r| ==> r[k] == s[LeadingSpace(s) + k]
    ensures forall k :: LeadingSpace(s) + |r| <= k < |s| ==> IsSpace(s[k])
    ensures IsStripped(s) ==> r == s
  {
    var l := StripLeft(s);
    StripPieces(s, l, StripRight(l), LeadingSpace(s));
    StripRight(l)
  }

  /** A prefix `r` of the suffix `s[n..]`, followed there by whitespace only, sits at `n` in `s`. */
  lemma StripPieces(s: string, l: string, r: string, n: nat)
    requires n <= |s| && l == s[n..]
    requires |r| <= |l| && r == l[..|r|]
    requires forall k :: |r| <= k < |l| ==> IsSpace(l[k])
    ensures forall k :: 0 <= k < |r| ==> r[k] == s[n + k]
    ensures forall k :: n + |r| <= k < |s| ==> IsSpace(s[k])
  {
    assert forall k :: n + |r| <= k < |s| ==> s[k] == l[k - n];
  }

  // ------------------------------------------------------------------
  // Paths (posixpath)

  /** `os.path.split(p)[-1]`: everything after the last '/'. */
  function Basename(p: string): (r: string)
    ensures '/' !in r
    ensures EndsWith(p, r)
    ensures |r| == |p| || p[|p| - |r| - 1] == '/'
  {
    var i := RFind(p, '/');
    TailAfter(p, i, '/');
    p[i + 1..]
  }

  /** The part of `p` after index `i` ends `p`, and holds no `c` when no `c` follows `i`. */
  lemma TailAfter(p: string, i: int, c: char)
    requires -1 <= i < |p|
    requires forall j :: i < j < |p| ==> p[j] != c
    ensures c !in p[i + 1..] && EndsWith(p, p[i + 1..])
  {
    var r := p[i + 1..];
    assert p[|p| - |r|..|p| - |r| + |r|] == r;
  }

  /** `s` consists of '/' characters only. */
  predicate AllSlashes(s: string) {
    forall k :: 0 <= k < |s| ==> s[k] == '/'
  }

  /** `s.rstrip('/')`. */
  function StripTrailingSlashes(s: string): string {
    if |s| > 0 && s[|s| - 1] == '/' then StripTrailingSlashes(s[..|s| - 1]) else s
  }

  /** `os.path.split(p)[0]`: up to the last '/', trailing slashes removed unless nothing but slashes remains. */
  function Dirname(p: string): string {
    var head := p[..RFind(p, '/') + 1];
    if head != "" && !AllSlashes(head) then StripTrailingSlashes(head) else head
  }

  /** The last component of `p` holds a '.' with some character other than '.' before it. */
  predicate HasExtension(p: string) {
    exists i, k :: 0 <= k < i < |p| && p[i] == '.' && p[k] != '.' && forall j :: k <= j < |p| ==> p[j] != '/'
  }

  /** `os.path.splitext(p)`: the extension runs from the last '.' of the last path component, unless only dots precede it there. */
  function SplitExt(p: string): (r: (string, string))
    ensures r.0 + r.1 == p
    ensures r.1 == "" || (r.1[0] == '.' && '/' !in r.1 && '.' !in r.1[1..])
    ensures r.1 != "" <==> HasExtension(p)
  {
    var sepIndex := RFind(p, '/');
    var dotIndex := RFind(p, '.');
    if dotIndex > sepIndex && (exists k :: sepIndex < k < dotIndex && p[k] != '.') then
      assert p[dotIndex..][1..] == p[dotIndex + 1..];
      (p[..dotIndex], p[dotIndex..])
    else
      (p, "")
  }

  /** `os.path.join(a, b)`. */
  function PathJoin(a: string, b: string): string {
    if StartsWith(b, "/") then b
    else if a == "" || EndsWith(a, "/") then a + b
    else a + "/" + b
  }

  lemma RFindAppendAbsent(a: string, b: string, c: char)
    requires c !in b
    ensures RFind(a + b, c) == RFind(a, c)
  {
    var s := a + b;
    assert forall j :: 0 <= j < |a| ==> s[j] == a[j];
    assert forall j :: |a| <= j < |s| ==> s[j] == b[j - |a|];
  }

  /** The last component of `os.path.join(dir, name)` is `name`, for a name without '/'. */
  lemma BasenameOfJoin(dir: string, name: string)
    requires '/' !in name
    ensures Basename(PathJoin(dir, name)) == name
  {
    if name != "" {
      assert name[0] != '/';
      assert !StartsWith(name, "/");
    }
    if dir == "" || EndsWith(dir, "/") {
      RFindAppendAbsent(dir, name, '/');
      if dir != "" {
        assert dir[|dir| - 1..] == "/";
        assert dir[|dir| - 1] == '/';
      }
      assert (dir + name)[|dir|..] == name;
    } else {
      RFindAppendAbsent(dir + "/", name, '/');
      assert (dir + "/")[|dir|] == '/';
      assert (dir + "/" + name)[|dir| + 1..] == name;
    }
  }

  // ------------------------------------------------------------------
  // Decimal numerals

  predicate IsDigit(c: char) {
    '0' <= c <= '9'
  }

  predicate AllDigits(s: string) {
    forall k :: 0 <= k < |s| ==> IsDigit(s[k])
  }

  function DigitChar(d: nat): (c: char)
    requires d < 10
    ensures IsDigit(c)
  {
    ('0' as int + d) as char
  }

  /** Python's `str(n)` for a non-negative integer. */
  function Decimal(n: nat): (s: string)
    ensures |s| >= 1 && AllDigits(s)
    ensures |s| > 1 ==> s[0] != '0'
  {
    if n < 10 then [DigitChar(n)] else Decimal(n / 10) + [DigitChar(n % 10)]
  }

  /** Python's `int(s)` for a string of decimal digits. */
  function ParseDecimal(s: string): nat
    requires AllDigits(s)
  {
    if s == "" then 0 else 10 * ParseDecimal(s[..|s| - 1]) + (s[|s| - 1] as int - '0' as int)
  }

  lemma {:induction false} ParseDecimalOfDecimal(n: nat)
    ensures ParseDecimal(Decimal(n)) == n
  {
    if n >= 10 {
      var s := Decimal(n);
      assert s[..|s| - 1] == Decimal(n / 10);
      ParseDecimalOfDecimal(n / 10);
    }
  }

  function Zeros(n: nat): (s: string)
    ensures |s| == n && forall k :: 0 <= k < n ==> s[k] == '0'
  {
    if n == 0 then "" else Zeros(n - 1) + "0"
  }

  lemma {:induction false} ParseDecimalLeadingZeros(z: nat, s: string)
    requires AllDigits(s)
    ensures AllDigits(Zeros(z) + s) && ParseDecimal(Zeros(z) + s) == ParseDecimal(s)
    decreases |s|
  {
    var t := Zeros(z) + s;
    if s == "" {
      assert t == Zeros(z);
      ParseDecimalZeros(z);
    } else {
      assert t[..|t| - 1] == Zeros(z) + s[..|s| - 1];
      ParseDecimalLeadingZeros(z, s[..|s| - 1]);
    }
  }

  lemma {:induction false} ParseDecimalZeros(z: nat)
    ensures ParseDecimal(Zeros(z)) == 0
  {
    if z > 0 {
      assert Zeros(z)[..z - 1] == Zeros(z - 1);
      ParseDecimalZeros(z - 1);
    }
  }

  /** Python's `"%04d" % n` for a non-negative `n`: the numeral padded with zeros on the left to four characters. */
  function Format04(n: nat): (s: string)
    ensures |s| >= 4 && AllDigits(s)
  {
    var d := Decimal(n);
    if |d| >= 4 then d else Zeros(4 - |d|) + d
  }

  /** `int("%04d" % n) == n`: the padded numeral still names `n`, so different counters give different numerals. */
  lemma Format04RoundTrip(n: nat)
    ensures ParseDecimal(Format04(n)) == n
  {
    ParseDecimalOfDecimal(n);
    var d := Decimal(n);
    if |d| < 4 {
      ParseDecimalLeadingZeros(4 - |d|, d);
    }
  }

  lemma Format04Injective(m: nat, n: nat)
    requires m != n
    ensures Format04(m) != Format04(n)
  {
    Format04RoundTrip(m);
    Format04RoundTrip(n);
  }
}
