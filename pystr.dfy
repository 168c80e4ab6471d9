/** The Python string built-ins the script relies on: `str.strip()`, `str.split(sep)`,
    iterating a text file line by line, `'{}'.format(n)` for a natural number, and
    POSIX `os.path.join` of two components. */
module PyStr {

  /** The characters `str.isspace()` accepts, which `str.strip()` removes. */
  predicate IsSpace(c: char)
  {
    || ('\t' <= c <= '\r')                  // tab, newline, vertical tab, form feed, carriage return
    || ('\U{1C}' <= c <= ' ')               // the four separators below space, and space
    || c == '\U{85}' || c == '\U{A0}' || c == '\U{1680}'
    || ('\U{2000}' <= c <= '\U{200A}')
    || c == '\U{2028}' || c == '\U{2029}' || c == '\U{202F}' || c == '\U{205F}' || c == '\U{3000}'
  }

  predicate AllSpace(s: string)
  {
    forall k :: 0 <= k < |s| ==> IsSpace(s[k])
  }

  /** The scan `str.strip()` starts with: the first index at or after `i` that does not hold
      whitespace, or `|s|` when there is none. */
  function SkipSpace(s: string, i: nat): (n: nat)
    requires i <= |s|
    ensures i <= n <= |s|
    ensures n == |s| || !IsSpace(s[n])
    ensures forall k :: i <= k < n ==> IsSpace(s[k])
    decreases |s| - i
  {
    if i < |s| && IsSpace(s[i]) then SkipSpace(s, i + 1) else i
  }

  /** The scan `str.strip()` ends with: walking back from `j`, but not below `lo`, the index
      just past the last character that is not whitespace. */
  function SkipSpaceBack(s: string, lo: nat, j: nat): (n: nat)
    requires lo <= j <= |s|
    ensures lo <= n <= j
    ensures n == lo || !IsSpace(s[n - 1])
    ensures forall k :: n <= k < j ==> IsSpace(s[k])
  {
    if j > lo && IsSpace(s[j - 1]) then SkipSpaceBack(s, lo, j - 1) else j
  }

  /** Every character of `s` from `lo` up to `hi` is whitespace. */
  predicate SpaceBetween(s: string, lo: nat, hi: nat)
    requires lo <= hi <= |s|
  {
    forall k :: lo <= k < hi ==> IsSpace(s[k])
  }

  /** The forward scan stops at the first index that does not hold whitespace. */
  lemma SkipSpaceStopsAt(s: string, i: nat, n: nat)
    requires i <= n <= |s| && SpaceBetween(s, i, n)
    requires n == |s| || !IsSpace(s[n])
    ensures SkipSpace(s, i) == n
  {
  }

  /** The backward scan stops just past the last character that is not whitespace. */
  lemma SkipSpaceBackStopsAt(s: string, lo: nat, j: nat, n: nat)
    requires lo <= n <= j <= |s| && SpaceBetween(s, n, j)
    requires n == lo || !IsSpace(s[n - 1])
    ensures SkipSpaceBack(s, lo, j) == n
  {
  }

  /** `s.strip()`: `s` without its leading and trailing whitespace. */
  function Strip(s: string): (r: string)
    ensures r == [] || (!IsSpace(r[0]) && !IsSpace(r[|r| - 1]))
  {
    var i := SkipSpace(s, 0);
    s[i..SkipSpaceBack(s, i, |s|)]
  }

  /** `strip()` removes only whitespace: its result is the part of `s` from where the
      leading whitespace ends, and only whitespace lies around it. */
  lemma StripRemovesOnlySpace(s: string)
    ensures var i, r := SkipSpace(s, 0), Strip(s);
      && i + |r| <= |s| && r == s[i..i + |r|]
      && SpaceBetween(s, 0, i) && SpaceBetween(s, i + |r|, |s|)
  {
  }

  /** `strip()` is characterised by what it leaves: whenever `s` is whitespace, then a string
      that neither starts nor ends with whitespace, then whitespace, that middle string is
      `s.strip()`. */
  lemma StripUnique(a: string, r: string, b: string)
    requires AllSpace(a) && AllSpace(b)
    requires r == [] || (!IsSpace(r[0]) && !IsSpace(r[|r| - 1]))
    ensures Strip(a + r + b) == r
  {
    var s := a + r + b;
    if r == [] {
      assert SpaceBetween(s, 0, |s|) by {
        forall k | 0 <= k < |s| ensures IsSpace(s[k]) {
          if k < |a| { assert s[k] == a[k]; } else { assert s[k] == b[k - |a|]; }
        }
      }
      SkipSpaceStopsAt(s, 0, |s|);
    } else {
      var i, j := |a|, |a| + |r|;
      assert SpaceBetween(s, 0, i) by {
        forall k | 0 <= k < i ensures IsSpace(s[k]) { assert s[k] == a[k]; }
      }
      assert s[i] == r[0];
      SkipSpaceStopsAt(s, 0, i);
      assert SpaceBetween(s, j, |s|) by {
        forall k | j <= k < |s| ensures IsSpace(s[k]) { assert s[k] == b[k - j]; }
      }
      assert s[j - 1] == r[|r| - 1];
      SkipSpaceBackStopsAt(s, i, |s|, j);
      assert s[i..j] == r;
    }
  }

  /** A string without leading or trailing whitespace is left alone by `strip()`. */
  lemma StripKeepsTrimmed(s: string)
    requires s == [] || (!IsSpace(s[0]) && !IsSpace(s[|s| - 1]))
    ensures Strip(s) == s
  {
    StripUnique([], s, []);
    assert [] + s + [] == s;
  }

  /** `(s + c).strip() == s.strip()` for a whitespace character `c` such as the newline that
      ends a line read from a file. */
  lemma StripAppendSpace(s: string, c: char)
    requires IsSpace(c)
    ensures Strip(s + [c]) == Strip(s)
  {
    var t := s + [c];
    var i := SkipSpace(s, 0);
    assert SpaceBetween(t, 0, i) by {
      forall k | 0 <= k < i ensures IsSpace(t[k]) { assert t[k] == s[k]; }
    }
    if i == |s| {
      SkipSpaceStopsAt(t, 0, |t|);
    } else {
      assert t[i] == s[i];
      SkipSpaceStopsAt(t, 0, i);
      var j := SkipSpaceBack(s, i, |s|);
      assert SpaceBetween(t, j, |t|) by {
        forall k | j <= k < |t| ensures IsSpace(t[k]) {
          if k < |s| { assert t[k] == s[k]; }
        }
      }
      if j > i {
        assert t[j - 1] == s[j - 1];
      }
      SkipSpaceBackStopsAt(t, i, |t|, j);
      assert t[i..j] == s[i..j];
    }
  }

  /** `sep.join(parts)`. */
  function Join(parts: seq<string>, sep: char): string
  {
    if |parts| == 0 then []
    else if |parts| == 1 then parts[0]
    else parts[0] + [sep] + Join(parts[1..], sep)
  }

  /** `s.split(sep)` for an explicit one-character separator: the pieces between separators,
      at least one piece, exactly one when `sep` does not occur. */
  function Split(s: string, sep: char): (parts: seq<string>)
    ensures |parts| >= 1
    ensures forall i :: 0 <= i < |parts| ==> sep !in parts[i]
    ensures |parts| == 1 <==> sep !in s
  {
    if s == [] then [[]]
    else
      var rest := Split(s[1..], sep);
      if s[0] == sep then [[]] + rest
      else
        assert forall i :: 1 <= i < |rest| ==> rest[1..][i - 1] == rest[i];
        [[s[0]] + rest[0]] + rest[1..]
  }

  /** Joining the pieces of a split gives back the string. */
  lemma {:induction false} JoinSplit(s: string, sep: char)
    ensures Join(Split(s, sep), sep) == s
  {
    if s != [] {
      var rest := Split(s[1..], sep);
      JoinSplit(s[1..], sep);
      if s[0] == sep {
        assert Split(s, sep) == [[]] + rest;
        assert ([[]] + rest)[1..] == rest;
      } else {
        var parts := Split(s, sep);
        assert parts == [[s[0]] + rest[0]] + rest[1..];
        if |rest| == 1 {
        } else {
          assert parts[1..] == rest[1..];
          assert Join(rest, sep) == rest[0] + [sep] + Join(rest[1..], sep);
        }
      }
    }
  }

  /** Splitting a piece without separators followed by a separator peels off that piece. */
  lemma {:induction false} SplitAfterPiece(a: string, t: string, sep: char)
    requires sep !in a
    ensures Split(a + [sep] + t, sep) == [a] + Split(t, sep)
  {
    if a == [] {
      assert ([sep] + t)[1..] == t;
    } else {
      assert (a + [sep] + t)[1..] == a[1..] + [sep] + t;
      SplitAfterPiece(a[1..], t, sep);
      var rest := Split(a[1..] + [sep] + t, sep);
      assert rest[0] == a[1..] && rest[1..] == Split(t, sep);
      assert [a[0]] + a[1..] == a;
    }
  }

  /** Splitting the join of separator-free pieces gives back the pieces. */
  lemma {:induction false} SplitJoin(parts: seq<string>, sep: char)
    requires |parts| >= 1
    requires forall i :: 0 <= i < |parts| ==> sep !in parts[i]
    ensures Split(Join(parts, sep), sep) == parts
  {
    if |parts| == 1 {
      SplitAfterPieceless(parts[0], sep);
    } else {
      SplitJoin(parts[1..], sep);
      SplitAfterPiece(parts[0], Join(parts[1..], sep), sep);
    }
  }

  /** A string without separators splits into itself. */
  lemma {:induction false} SplitAfterPieceless(a: string, sep: char)
    requires sep !in a
    ensures Split(a, sep) == [a]
  {
    if a != [] {
      SplitAfterPieceless(a[1..], sep);
      assert [a[0]] + a[1..] == a;
    }
  }

  /** When `s` has at least two pieces, it starts with the first piece, the separator and the
      second piece, and the second piece ends at the next separator or at the end of `s`. */
  lemma SplitFirstTwo(s: string, sep: char)
    requires |Split(s, sep)| >= 2
    ensures var p := Split(s, sep); p[0] + [sep] + p[1] <= s
    ensures var p := Split(s, sep); var n := |p[0]| + 1 + |p[1]|; n == |s| || s[n] == sep
  {
    var p := Split(s, sep);
    JoinSplit(s, sep);
    var tail := p[1..];
    assert s == p[0] + [sep] + Join(tail, sep);
    if |tail| == 1 {
      assert Join(tail, sep) == p[1];
    } else {
      assert Join(tail, sep) == p[1] + [sep] + Join(tail[1..], sep);
      assert s == (p[0] + [sep] + p[1]) + [sep] + Join(tail[1..], sep);
    }
  }

  /** The lines iterating over a text file with content `content` yields: the pieces up to and
      including each newline, and the unterminated rest if there is one. */
  function FileLines(content: string): (lines: seq<string>)
    ensures forall i :: 0 <= i < |lines| ==> |lines[i]| > 0
    ensures content == [] <==> lines == []
  {
    if content == [] then []
    else
      var rest := FileLines(content[1..]);
      if content[0] == '\n' then ["\n"] + rest
      else if rest == [] then [[content[0]]]
      else
        assert forall i :: 1 <= i < |rest| ==> rest[1..][i - 1] == rest[i];
        [[content[0]] + rest[0]] + rest[1..]
  }

  /** Every line but the last ends with a newline, and no line has a newline anywhere else. */
  predicate WellFormedLines(lines: seq<string>)
  {
    && (forall i :: 0 <= i < |lines| ==> |lines[i]| > 0 && '\n' !in lines[i][..|lines[i]| - 1])
    && (forall i :: 0 <= i < |lines| - 1 ==> |lines[i]| > 0 && lines[i][|lines[i]| - 1] == '\n')
  }

  /** The lines of a file are well formed. */
  lemma {:induction false} FileLinesWellFormed(content: string)
    ensures WellFormedLines(FileLines(content))
  {
    if content != [] {
      FileLinesWellFormed(content[1..]);
      var rest := FileLines(content[1..]);
      var lines := FileLines(content);
      if content[0] == '\n' {
        assert lines == ["\n"] + rest;
        forall i | 0 <= i < |lines| ensures '\n' !in lines[i][..|lines[i]| - 1] {
          if i > 0 {
            assert lines[i] == rest[i - 1];
            assert '\n' !in rest[i - 1][..|rest[i - 1]| - 1];
          } else {
            assert lines[0][..|lines[0]| - 1] == [];
          }
        }
        forall i | 0 <= i < |lines| - 1 ensures lines[i][|lines[i]| - 1] == '\n' {
          if i > 0 {
            assert lines[i] == rest[i - 1];
            assert rest[i - 1][|rest[i - 1]| - 1] == '\n';
          } else {
            assert lines[0] == "\n";
          }
        }
      } else if rest != [] {
        assert lines == [[content[0]] + rest[0]] + rest[1..];
        forall i | 0 <= i < |lines| ensures '\n' !in lines[i][..|lines[i]| - 1] {
          if i > 0 {
            assert lines[i] == rest[i];
            assert '\n' !in rest[i][..|rest[i]| - 1];
          } else {
            assert '\n' !in rest[0][..|rest[0]| - 1];
            assert lines[0][..|lines[0]| - 1] == [content[0]] + rest[0][..|rest[0]| - 1];
          }
        }
        forall i | 0 <= i < |lines| - 1 ensures lines[i][|lines[i]| - 1] == '\n' {
          if i > 0 {
            assert lines[i] == rest[i];
            assert rest[i][|rest[i]| - 1] == '\n';
          } else {
            assert rest[0][|rest[0]| - 1] == '\n';
            assert lines[0][|lines[0]| - 1] == rest[0][|rest[0]| - 1];
          }
        }
      }
    }
  }

  /** The concatenation of a sequence of strings. */
  function Concat(ss: seq<string>): string
  {
    if ss == [] then [] else ss[0] + Concat(ss[1..])
  }

  /** Reading a file line by line loses nothing: the lines concatenate to the content. */
  lemma {:induction false} ConcatFileLines(content: string)
    ensures Concat(FileLines(content)) == content
  {
    if content != [] {
      var rest := FileLines(content[1..]);
      ConcatFileLines(content[1..]);
      if content[0] == '\n' {
        assert (["\n"] + rest)[1..] == rest;
      } else if rest == [] {
        assert content[1..] == [];
      } else {
        var lines := [[content[0]] + rest[0]] + rest[1..];
        assert lines[1..] == rest[1..];
        assert Concat(rest) == rest[0] + Concat(rest[1..]);
      }
    }
  }

  /** A file whose first line is `a` (no newline inside) reads as `a` with its newline, then the rest. */
  lemma {:induction false} FileLinesAfterLine(a: string, t: string)
    requires '\n' !in a
    ensures FileLines(a + "\n" + t) == [a + "\n"] + FileLines(t)
  {
    if a != [] {
      assert (a + "\n" + t)[1..] == a[1..] + "\n" + t;
      FileLinesAfterLine(a[1..], t);
      var rest := FileLines(a[1..] + "\n" + t);
      assert rest[0] == a[1..] + "\n" && rest[1..] == FileLines(t);
      assert [a[0]] + (a[1..] + "\n") == a + "\n";
    } else {
      assert a + "\n" + t == "\n" + t;
      assert ("\n" + t)[0] == '\n' && ("\n" + t)[1..] == t;
    }
  }

  /** The content of a file that holds the given lines, each ended by a newline. */
  function Terminated(lines: seq<string>): string
  {
    if lines == [] then [] else lines[0] + "\n" + Terminated(lines[1..])
  }

  /** Reading back a file written as newline-terminated lines yields those lines with their newlines. */
  lemma {:induction false} FileLinesTerminated(lines: seq<string>)
    requires forall i :: 0 <= i < |lines| ==> '\n' !in lines[i]
    ensures |FileLines(Terminated(lines))| == |lines|
    ensures forall i :: 0 <= i < |lines| ==> FileLines(Terminated(lines))[i] == lines[i] + "\n"
  {
    if lines != [] {
      FileLinesTerminated(lines[1..]);
      FileLinesAfterLine(lines[0], Terminated(lines[1..]));
      var r := FileLines(Terminated(lines));
      forall i | 1 <= i < |lines| ensures r[i] == lines[i] + "\n" {
        assert lines[1..][i - 1] == lines[i];
      }
    }
  }

  /** The decimal digit `d` as a character. */
  function DigitChar(d: nat): (c: char)
    requires d < 10
    ensures '0' <= c <= '9'
    ensures c as int - '0' as int == d
  {
    ('0' as int + d) as char
  }

  predicate AllDigits(s: string)
  {
    forall k :: 0 <= k < |s| ==> '0' <= s[k] <= '9'
  }

  /** `'{}'.format(n)` for a natural number `n`: its decimal digits. */
  function NatToString(n: nat): (s: string)
    ensures |s| >= 1 && AllDigits(s)
    ensures s[0] == '0' <==> n == 0
  {
    if n < 10 then [DigitChar(n)]
    else
      var prefix := NatToString(n / 10);
      assert (prefix + [DigitChar(n % 10)])[0] == prefix[0];
      prefix + [DigitChar(n % 10)]
  }

  /** The value of a string of decimal digits. */
  function ParseNat(s: string): nat
    requires AllDigits(s)
  {
    if s == [] then 0 else ParseNat(s[..|s| - 1]) * 10 + (s[|s| - 1] as int - '0' as int)
  }

  /** Formatting a number and reading the digits back gives the number. */
  lemma {:induction false} ParseNatToString(n: nat)
    ensures ParseNat(NatToString(n)) == n
  {
    if n >= 10 {
      var s := NatToString(n);
      ParseNatToString(n / 10);
      assert s[..|s| - 1] == NatToString(n / 10);
    }
  }

  /** Different numbers are formatted differently. */
  lemma NatToStringInjective(a: nat, b: nat)
    ensures NatToString(a) == NatToString(b) ==> a == b
  {
    ParseNatToString(a);
    ParseNatToString(b);
  }

  /** POSIX `os.path.join(dir, name)`: an absolute `name` replaces `dir`; otherwise a `/` is
      inserted unless `dir` is empty or already ends with one. */
  function PathJoin(dir: string, name: string): (p: string)
    ensures |name| > 0 && name[0] == '/' ==> p == name
    ensures (|name| == 0 || name[0] != '/') ==> dir <= p && |dir| + |name| <= |p| <= |dir| + |name| + 1
  {
    if |name| > 0 && name[0] == '/' then name
    else if dir == [] || dir[|dir| - 1] == '/' then dir + name
    else dir + "/" + name
  }

  /** A relative name is appended to the directory, with exactly one `/` at the boundary unless
      the directory is empty. */
  lemma PathJoinRelative(dir: string, name: string)
    requires |name| == 0 || name[0] != '/'
    ensures var p := PathJoin(dir, name);
      && p[|p| - |name|..] == name
      && (dir != [] ==> p[|p| - |name| - 1] == '/')
      && (dir != [] && dir[|dir| - 1] == '/' ==> |p| == |dir| + |name|)
      && (dir == [] ==> p == name)
  {
    var p := PathJoin(dir, name);
    if dir != [] && dir[|dir| - 1] != '/' {
      assert p == (dir + "/") + name;
    }
  }

  /** Joining one directory with two relative names gives different paths for different names. */
  lemma PathJoinInjective(dir: string, x: string, y: string)
    requires x == [] || x[0] != '/'
    requires y == [] || y[0] != '/'
    ensures PathJoin(dir, x) == PathJoin(dir, y) ==> x == y
  {
    if PathJoin(dir, x) == PathJoin(dir, y) {
      var prefix := if dir == [] || dir[|dir| - 1] == '/' then dir else dir + "/";
      assert PathJoin(dir, x) == prefix + x && PathJoin(dir, y) == prefix + y;
      assert x == (prefix + x)[|prefix|..];
      assert y == (prefix + y)[|prefix|..];
    }
  }
}
