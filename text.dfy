/**
 * The handful of Python `str` operations the predictors are built from,
 * written out over `seq<char>`: `strip()`, `split(sep, 1)[0]`,
 * `split(sep, 1)` unpacked into two parts, `rsplit(c, 1)[0]`, `sep.join`,
 * `count`, `replace("\\n", "\n")` and the decimal rendering of an `int`
 * inside an f-string.
 */
module Text {
  import opened Wrappers

  /** The characters for which Python's `str.isspace()` holds; these are the
      ones `str.strip()` removes and the regular expression class `\s` matches. */
  predicate IsSpace(c: char) {
    || ('\t' <= c <= '\r')
    || ('\U{1C}' <= c <= ' ')
    || c == '\U{85}' || c == '\U{A0}' || c == '\U{1680}'
    || ('\U{2000}' <= c <= '\U{200A}')
    || c == '\U{2028}' || c == '\U{2029}' || c == '\U{202F}'
    || c == '\U{205F}' || c == '\U{3000}'
  }

  /** The regular-expression class `\w`, restricted to ASCII. */
  predicate IsWordChar(c: char) {
    ('a' <= c <= 'z') || ('A' <= c <= 'Z') || ('0' <= c <= '9') || c == '_'
  }

  /** `s.lstrip()`: drops the leading whitespace and nothing else. */
  function TrimStart(s: string): (r: string)
    ensures |r| <= |s| && r == s[|s| - |r|..]
    ensures forall i :: 0 <= i < |s| - |r| ==> IsSpace(s[i])
    ensures r != [] ==> !IsSpace(r[0])
  {
    if s != [] && IsSpace(s[0]) then TrimStart(s[1..]) else s
  }

  /** `s.rstrip()`: drops the trailing whitespace and nothing else. */
  function TrimEnd(s: string): (r: string)
    ensures |r| <= |s| && r == s[..|r|]
    ensures forall i :: |r| <= i < |s| ==> IsSpace(s[i])
    ensures r != [] ==> !IsSpace(r[|r| - 1])
  {
    if s != [] && IsSpace(s[|s| - 1]) then TrimEnd(s[..|s| - 1]) else s
  }

  /** `s.strip()`: `s` without its leading and trailing whitespace. */
  function Strip(s: string): (r: string)
    ensures |r| <= |s|
    ensures r != [] ==> !IsSpace(r[0]) && !IsSpace(r[|r| - 1])
  {
    TrimEnd(TrimStart(s))
  }

  /** `strip()` removes whitespace and nothing else: what it keeps is the
      run of `s` starting after the leading whitespace, and everything after
      that run is whitespace too. */
  lemma StripKeepsMiddle(s: string)
    ensures |s| - |TrimStart(s)| + |Strip(s)| <= |s|
    ensures forall i :: 0 <= i < |Strip(s)| ==> Strip(s)[i] == s[|s| - |TrimStart(s)| + i]
    ensures forall i :: |s| - |TrimStart(s)| + |Strip(s)| <= i < |s| ==> IsSpace(s[i])
  {
    StripIsSlice(s);
    StripTailIsSpace(s);
  }

  /** What `strip()` keeps is a slice of `s`. */
  lemma StripIsSlice(s: string)
    ensures var a := |s| - |TrimStart(s)|;
      forall i :: 0 <= i < |Strip(s)| ==> Strip(s)[i] == s[a + i]
  {
    var t := TrimStart(s);
    var r := TrimEnd(t);
    var a := |s| - |t|;
    forall i | 0 <= i < |r| ensures r[i] == s[a + i] {
      assert r[i] == t[i];
      assert t[i] == s[a..][i];
    }
  }

  /** Everything after what `strip()` keeps is whitespace. */
  lemma StripTailIsSpace(s: string)
    ensures forall i :: |s| - |TrimStart(s)| + |Strip(s)| <= i < |s| ==> IsSpace(s[i])
  {
    var t := TrimStart(s);
    var r := TrimEnd(t);
    var a := |s| - |t|;
    forall i | a + |r| <= i < |s| ensures IsSpace(s[i]) {
      assert t[i - a] == s[i];
    }
  }

  /** `strip()` only removes characters, so a character absent from `s` is
      absent from `s.strip()`. */
  lemma StripKeepsOut(s: string, c: char)
    requires c !in s
    ensures c !in Strip(s)
  {
    var t := TrimStart(s);
    assert c !in t by {
      forall i | 0 <= i < |t| ensures t[i] != c {
        assert t[i] == s[|s| - |t| + i];
      }
    }
    var r := TrimEnd(t);
    forall i | 0 <= i < |r| ensures r[i] != c {
      assert r[i] == t[i];
    }
  }

  /** `t` occurs in `s` starting at index `i`. */
  predicate OccursAt(s: string, t: string, i: int) {
    0 <= i && i + |t| <= |s| && s[i..i + |t|] == t
  }

  /** The first index at or after `i` where `t` occurs in `s`. */
  function FindFrom(s: string, t: string, i: nat): (r: Option<nat>)
    requires i <= |s|
    ensures r.Some? ==> i <= r.value && OccursAt(s, t, r.value)
                        && forall j :: i <= j < r.value ==> !OccursAt(s, t, j)
    ensures r.None? ==> forall j :: i <= j <= |s| ==> !OccursAt(s, t, j)
    decreases |s| - i
  {
    if OccursAt(s, t, i) then Some(i)
    else if i == |s| then None
    else FindFrom(s, t, i + 1)
  }

  /** `s.find(t)`, as an option. */
  function Find(s: string, t: string): (r: Option<nat>)
    ensures r.Some? ==> OccursAt(s, t, r.value) && forall j :: 0 <= j < r.value ==> !OccursAt(s, t, j)
    ensures r.None? ==> forall j :: 0 <= j <= |s| ==> !OccursAt(s, t, j)
  {
    FindFrom(s, t, 0)
  }

  /** `s.split(sep, 1)[0]`: everything before the first `sep`, or all of `s`. */
  function Before(s: string, sep: string): (r: string)
    ensures |r| <= |s| && r == s[..|r|]
    ensures forall j :: 0 <= j < |r| ==> !OccursAt(s, sep, j)
    ensures |r| < |s| ==> OccursAt(s, sep, |r|)
    ensures sep != [] && r == s ==> forall j :: 0 <= j <= |s| ==> !OccursAt(s, sep, j)
  {
    match Find(s, sep)
    case Some(i) => s[..i]
    case None => s
  }

  /** `s.split("\n")[0]`: the first line. */
  function FirstLine(s: string): (r: string)
    ensures |r| <= |s| && r == s[..|r|] && '\n' !in r
    ensures |r| < |s| ==> s[|r|] == '\n'
  {
    var r := Before(s, "\n");
    assert forall j :: 0 <= j < |r| ==> r[j] == s[j] && !OccursAt(s, "\n", j);
    assert |r| < |s| ==> s[|r|..|r| + 1] == [s[|r|]];
    r
  }

  /** `a, b = s.split(sep, 1)`: `None` when `sep` does not occur, which in
      Python makes the two-name unpacking raise. */
  function Partition(s: string, sep: string): (r: Option<(string, string)>)
    ensures r.None? <==> Find(s, sep).None?
    ensures r.Some? ==> s == r.value.0 + sep + r.value.1 && r.value.0 == Before(s, sep)
  {
    match Find(s, sep)
    case Some(i) =>
      assert s == s[..i] + s[i..i + |sep|] + s[i + |sep|..];
      Some((s[..i], s[i + |sep|..]))
    case None => None
  }

  /** Splitting at the first `c` gives back the parts around it when the
      first part has no `c`. */
  lemma PartitionAfterPrefix(p: string, c: char, q: string)
    requires c !in p
    ensures Partition(p + [c] + q, [c]) == Some((p, q))
  {
    var s := p + [c] + q;
    assert Find(s, [c]) == Some(|p|) by {
      assert OccursAt(s, [c], |p|);
      forall j | 0 <= j < |p| ensures !OccursAt(s, [c], j) {
        assert s[j] == p[j];
      }
    }
    assert s[..|p|] == p;
    assert s[|p| + 1..] == q;
  }

  /** The last index of `c` in `s`. */
  function LastIndexOf(s: string, c: char): (r: Option<nat>)
    ensures r.Some? ==> r.value < |s| && s[r.value] == c && c !in s[r.value + 1..]
    ensures r.None? ==> c !in s
  {
    if s == [] then None
    else if s[|s| - 1] == c then Some(|s| - 1)
    else
      var r := LastIndexOf(s[..|s| - 1], c);
      assert r.Some? ==> s[r.value + 1..] == s[..|s| - 1][r.value + 1..] + [s[|s| - 1]];
      assert s == s[..|s| - 1] + [s[|s| - 1]];
      r
  }

  /** `s.rsplit(c, 1)[0]`: everything before the last `c`, or all of `s`. */
  function BeforeLast(s: string, c: char): (r: string)
    ensures |r| <= |s| && r == s[..|r|]
    ensures |r| < |s| ==> s[|r|] == c && c !in s[|r| + 1..]
    ensures |r| == |s| ==> c !in s
  {
    match LastIndexOf(s, c)
    case Some(i) => s[..i]
    case None => s
  }

  /** `s.rsplit(c, 1)[0]` is all of `s` when `c` does not occur, and
      otherwise `s` up to its last `c`, the rest holding no `c`. */
  lemma BeforeLastSplit(s: string, c: char)
    ensures c !in s ==> BeforeLast(s, c) == s
    ensures c in s ==> exists tail :: s == BeforeLast(s, c) + [c] + tail && c !in tail
  {
    var r := BeforeLast(s, c);
    if c in s {
      var tail := s[|r| + 1..];
      assert s == r + [c] + tail;
    }
  }

  /** A final `c` is the last one, so `rsplit` drops exactly it. */
  lemma BeforeLastAppend(s: string, c: char)
    ensures BeforeLast(s + [c], c) == s
  {
    assert (s + [c])[..|s|] == s;
  }

  /** `sep.join(parts)`. */
  function Join(parts: seq<string>, sep: string): string {
    if parts == [] then ""
    else if |parts| == 1 then parts[0]
    else Join(parts[..|parts| - 1], sep) + sep + parts[|parts| - 1]
  }

  /** Two parts joined: the first, the separator, the second. */
  lemma JoinTwo(a: string, b: string, sep: string)
    ensures Join([a, b], sep) == a + sep + b
  {
    assert [a, b][..1] == [a];
  }

  /** Three parts joined, with a separator between each two. */
  lemma JoinThree(a: string, b: string, c: string, sep: string)
    ensures Join([a, b, c], sep) == a + sep + b + sep + c
  {
    assert [a, b, c][..2] == [a, b];
    JoinTwo(a, b, sep);
  }

  /** `", ".join(f"`{n}`" for n in names)`: names in backticks, comma separated. */
  function QuotedList(names: seq<string>): string {
    Join(seq(|names|, i requires 0 <= i < |names| => "`" + names[i] + "`"), ", ")
  }

  /** `s.count(c)` for a one-character argument. */
  function Count(s: string, c: char): nat {
    if s == [] then 0 else Count(s[..|s| - 1], c) + (if s[|s| - 1] == c then 1 else 0)
  }

  /** `s.startswith(p)`. */
  predicate StartsWith(s: string, p: string) {
    |p| <= |s| && s[..|p|] == p
  }

  /** `s.replace("\\n", "\n")`: every backslash-n pair, scanned left to
      right without overlap, becomes a newline. */
  function UnescapeNewlines(s: string): (r: string)
    ensures |r| <= |s|
    ensures '\\' !in s ==> r == s
  {
    if |s| >= 2 && s[0] == '\\' && s[1] == 'n' then "\n" + UnescapeNewlines(s[2..])
    else if s == [] then []
    else [s[0]] + UnescapeNewlines(s[1..])
  }

  /** The opposite direction: every newline written as a backslash-n pair. */
  function EscapeNewlines(s: string): (r: string)
    ensures '\n' !in r
  {
    if s == [] then []
    else (if s[0] == '\n' then "\\n" else [s[0]]) + EscapeNewlines(s[1..])
  }

  /** Unescaping undoes escaping whenever the text holds no backslash of its own. */
  lemma {:induction false} UnescapeEscape(s: string)
    requires '\\' !in s
    ensures UnescapeNewlines(EscapeNewlines(s)) == s
  {
    if s != [] {
      UnescapeEscape(s[1..]);
      if s[0] == '\n' {
        assert EscapeNewlines(s) == "\\n" + EscapeNewlines(s[1..]);
      } else {
        var e := EscapeNewlines(s[1..]);
        assert EscapeNewlines(s) == [s[0]] + e;
        assert ([s[0]] + e)[1..] == e;
      }
    }
  }

  /** One decimal digit. */
  function DigitChar(d: nat): (c: char)
    requires d < 10
    ensures '0' <= c <= '9'
  {
    (48 + d) as char
  }

  /** The decimal rendering of `n`, as `f"{n}"` writes it. */
  function NatToString(n: nat): (r: string)
    ensures |r| >= 1 && forall i :: 0 <= i < |r| ==> '0' <= r[i] <= '9'
    ensures n < 10 <==> |r| == 1
  {
    if n < 10 then [DigitChar(n)] else NatToString(n / 10) + [DigitChar(n % 10)]
  }

  /** Different numbers render differently, so hop-numbered field names never collide. */
  lemma {:induction false} NatToStringInjective(a: nat, b: nat)
    requires NatToString(a) == NatToString(b)
    ensures a == b
  {
    if a >= 10 && b >= 10 {
      var sa, sb := NatToString(a), NatToString(b);
      assert sa[|sa| - 1] == DigitChar(a % 10) && sb[|sb| - 1] == DigitChar(b % 10);
      assert sa[..|sa| - 1] == NatToString(a / 10);
      assert sb[..|sb| - 1] == NatToString(b / 10);
      NatToStringInjective(a / 10, b / 10);
    }
  }

  /** A common prefix can be cancelled from two equal strings. */
  lemma CancelPrefix(p: string, x: string, y: string)
    requires p + x == p + y
    ensures x == y
  {
    assert x == (p + x)[|p|..];
    assert y == (p + y)[|p|..];
  }
  /** `s.strip(c)` for a one-character argument: drops `c` from both ends. */
  function StripChar(s: string, c: char): (r: string)
    ensures |r| <= |s|
    ensures r != [] ==> r[0] != c && r[|r| - 1] != c
    decreases |s|
  {
    if s != [] && s[0] == c then StripChar(s[1..], c)
    else if s != [] && s[|s| - 1] == c then StripChar(s[..|s| - 1], c)
    else s
  }

  /** Text that neither begins nor ends with whitespace is left alone by `strip()`. */
  lemma StripUnchanged(s: string)
    requires s != [] ==> !IsSpace(s[0]) && !IsSpace(s[|s| - 1])
    ensures Strip(s) == s
  {
  }

  /** Text without a newline is its own first line. */
  lemma FirstLineUnchanged(s: string)
    requires '\n' !in s
    ensures FirstLine(s) == s
  {
  }

  /** A prefix without a newline that is followed by a newline (or by
      nothing) is the first line. */
  lemma FirstLineOf(t: string, x: string)
    requires '\n' !in x && |x| <= |t| && t[..|x|] == x
    requires |x| < |t| ==> t[|x|] == '\n'
    ensures FirstLine(t) == x
  {
    assert forall i :: 0 <= i < |x| ==> t[i] == x[i] != '\n';
  }

  /** Stripping a line that neither begins nor ends with whitespace, followed
      by a newline and anything else, keeps the line and at most a newline after it. */
  lemma StripFromLine(x: string, rest: string)
    requires x != [] && !IsSpace(x[0]) && !IsSpace(x[|x| - 1])
    ensures var t := Strip(x + "\n" + rest);
      |x| <= |t| && t[..|x|] == x && (|x| < |t| ==> t[|x|] == '\n')
  {
    var s := x + "\n" + rest;
    assert s[0] == x[0] && s[|x| - 1] == x[|x| - 1] && s[|x|] == '\n';
    assert TrimStart(s) == s;
    var t := TrimEnd(s);
    assert t[..|x|] == s[..|x|] == x;
  }

  /** No occurrence of `c` comes before the first one, and there is a first
      one exactly when `c` occurs at all. */
  lemma CharNotBefore(s: string, c: char)
    ensures c !in Before(s, [c])
    ensures Find(s, [c]).None? <==> c !in s
  {
    var r := Before(s, [c]);
    forall i | 0 <= i < |r| ensures r[i] != c {
      assert !OccursAt(s, [c], i);
      assert s[i..i + 1] == [s[i]];
    }
    if c in s {
      var i :| 0 <= i < |s| && s[i] == c;
      assert s[i..i + 1] == [c];
      assert OccursAt(s, [c], i);
    }
    if Find(s, [c]).Some? {
      var i := Find(s, [c]).value;
      assert s[i..i + 1][0] == s[i];
    }
  }
}
