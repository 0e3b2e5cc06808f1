/**
  The Python 2 `str` operations the agent relies on, over `seq<char>`:
  `startswith`, `in`, `strip`, `split` (with a separator, with a maximum
  number of splits, and on whitespace), `join`, `rpartition`, slicing `s[:n]`,
  `readlines`, `int()` and `%d`.
 */
module Text {
  import opened Wrappers

  /** The characters Python 2's `str.strip()` and `str.split()` treat as whitespace. */
  const Whitespace: set<char> := {' ', '\t', '\n', '\r', '\U{000B}', '\U{000C}'}

  predicate IsSpace(c: char) {
    c in Whitespace
  }

  /** `s.startswith(p)`; also `s.find(p) == 0`. */
  predicate StartsWith(s: string, p: string) {
    |p| <= |s| && s[..|p|] == p
  }

  /** `sub in s` */
  predicate Contains(s: string, sub: string)
    decreases |s|
  {
    StartsWith(s, sub) || (|s| > 0 && Contains(s[1..], sub))
  }

  /** Python's `s[:n]` for a non-negative `n`. */
  function Take(s: string, n: nat): (r: string)
    ensures |r| <= n && |r| <= |s|
    ensures r == s[..|r|]
    ensures |s| <= n ==> r == s
    ensures n <= |s| ==> |r| == n
  {
    if |s| <= n then s else s[..n]
  }

  // ---------------------------------------------------------------- strip

  /** `s.lstrip(chars)` */
  function TrimLeft(s: string, chars: set<char>): (r: string)
    ensures |r| <= |s| && r == s[|s| - |r|..]
    ensures r == "" || r[0] !in chars
    ensures forall k :: 0 <= k < |s| - |r| ==> s[k] in chars
    decreases |s|
  {
    if |s| > 0 && s[0] in chars then TrimLeft(s[1..], chars) else s
  }

  /** `s.rstrip(chars)` */
  function TrimRight(s: string, chars: set<char>): (r: string)
    ensures |r| <= |s| && r == s[..|r|]
    ensures r == "" || r[|r| - 1] !in chars
    ensures forall k :: |r| <= k < |s| ==> s[k] in chars
    decreases |s|
  {
    if |s| > 0 && s[|s| - 1] in chars then TrimRight(s[..|s| - 1], chars) else s
  }

  /** `s.strip(chars)` */
  function Trim(s: string, chars: set<char>): (r: string)
    ensures |r| <= |s|
    ensures r == "" || (r[0] !in chars && r[|r| - 1] !in chars)
  {
    TrimLeft(TrimRight(s, chars), chars)
  }

  /** Stripping a string wrapped in one stripped character on each side, when the string
      itself neither starts nor ends with one, gives that string back. */
  lemma TrimWrapped(inner: string, l: char, r: char, chars: set<char>)
    requires l in chars && r in chars
    requires inner == "" || (inner[0] !in chars && inner[|inner| - 1] !in chars)
    ensures Trim([l] + inner + [r], chars) == inner
  {
    var s := [l] + inner + [r];
    assert s[..|s| - 1] == [l] + inner;
    if inner == "" {
      assert ([l] + inner)[..0] == [];
    } else {
      assert ([l] + inner)[|inner|] == inner[|inner| - 1];
      assert TrimRight(s, chars) == [l] + inner;
      assert ([l] + inner)[1..] == inner;
    }
  }

  /** `s.strip()` */
  function Strip(s: string): (r: string)
    ensures |r| <= |s|
  {
    Trim(s, Whitespace)
  }

  /** A stripped string neither starts nor ends with whitespace. */
  lemma StripEnds(s: string)
    ensures Strip(s) == "" || (!IsSpace(Strip(s)[0]) && !IsSpace(Strip(s)[|Strip(s)| - 1]))
  {
  }

  /** Stripping leaves a string whose first and last characters are not whitespace unchanged. */
  lemma StripKeeps(s: string)
    requires s == "" || (!IsSpace(s[0]) && !IsSpace(s[|s| - 1]))
    ensures Strip(s) == s
  {
  }

  /** Stripping is idempotent. */
  lemma StripIdempotent(s: string)
    ensures Strip(Strip(s)) == Strip(s)
  {
    StripKeeps(Strip(s));
  }

  // ---------------------------------------------------------------- substring search

  lemma {:induction false} ContainsAt(s: string, sub: string, i: nat)
    requires i + |sub| <= |s| && s[i..i + |sub|] == sub
    ensures Contains(s, sub)
    decreases i
  {
    if i == 0 {
      assert s[..|sub|] == sub;
    } else {
      assert s[1..][i - 1..i - 1 + |sub|] == s[i..i + |sub|];
      ContainsAt(s[1..], sub, i - 1);
    }
  }

  lemma {:induction false} ContainsWitness(s: string, sub: string) returns (i: nat)
    requires Contains(s, sub)
    ensures i + |sub| <= |s| && s[i..i + |sub|] == sub
    decreases |s|
  {
    if StartsWith(s, sub) {
      i := 0;
    } else {
      var j := ContainsWitness(s[1..], sub);
      assert s[1..][j..j + |sub|] == s[j + 1..j + 1 + |sub|];
      i := j + 1;
    }
  }

  /** A string contains every string glued into it. */
  /** A one-character substring is just a character of the string. */
  lemma {:induction false} ContainsChar(s: string, c: char)
    ensures Contains(s, [c]) <==> c in s
    decreases |s|
  {
    if s != [] {
      ContainsChar(s[1..], c);
      assert s == [s[0]] + s[1..];
    }
  }

  lemma ContainsMiddle(a: string, sub: string, b: string)
    ensures Contains(a + sub + b, sub)
  {
    assert (a + sub + b)[|a|..|a| + |sub|] == sub;
    ContainsAt(a + sub + b, sub, |a|);
  }

  /** Gluing text around a string keeps whatever it contained. */
  lemma ContainsWithin(a: string, x: string, b: string, sub: string)
    requires Contains(x, sub)
    ensures Contains(a + x + b, sub)
  {
    var i := ContainsWitness(x, sub);
    assert (a + x + b)[|a| + i..|a| + i + |sub|] == x[i..i + |sub|];
    ContainsAt(a + x + b, sub, |a| + i);
  }

  /** A string too short for `sub` cannot contain it. */
  lemma ContainsNeedsLength(s: string, sub: string)
    requires Contains(s, sub)
    ensures |sub| <= |s|
  {
    var i := ContainsWitness(s, sub);
  }

  // ---------------------------------------------------------------- split and join

  /** `s.split(sep)` for a non-empty separator: every occurrence, left to right. */
  function Split(s: string, sep: string): (r: seq<string>)
    requires |sep| > 0
    ensures |r| >= 1
    decreases |s|
  {
    if |s| < |sep| then [s]
    else if s[..|sep|] == sep then [""] + Split(s[|sep|..], sep)
    else
      var rest := Split(s[1..], sep);
      [[s[0]] + rest[0]] + rest[1..]
  }

  /** `s.split(sep, n)`: at most `n` splits, the remainder stays in the last piece. */
  function SplitMax(s: string, sep: string, n: nat): (r: seq<string>)
    requires |sep| > 0
    ensures 1 <= |r| <= n + 1
    decreases |s|
  {
    if n == 0 || |s| < |sep| then [s]
    else if s[..|sep|] == sep then [""] + SplitMax(s[|sep|..], sep, n - 1)
    else
      var rest := SplitMax(s[1..], sep, n);
      [[s[0]] + rest[0]] + rest[1..]
  }

  /** A first piece free of the separator character is split off whole. */
  lemma {:induction false} SplitMaxHead(a: string, c: char, rest: string, n: nat)
    requires n > 0 && c !in a
    ensures SplitMax(a + [c] + rest, [c], n) == [a] + SplitMax(rest, [c], n - 1)
    decreases |a|
  {
    var s := a + [c] + rest;
    if a == [] {
      assert s == [c] + rest && s[..1] == [c] && s[1..] == rest;
    } else {
      assert s[0] == a[0] && s[..1] != [c];
      SplitMaxHead(a[1..], c, rest, n);
      assert s[1..] == a[1..] + [c] + rest;
      assert [s[0]] + a[1..] == a;
    }
  }

  /** `sep.join(parts)` */
  function Join(parts: seq<string>, sep: string): string {
    if |parts| == 0 then ""
    else if |parts| == 1 then parts[0]
    else parts[0] + sep + Join(parts[1..], sep)
  }

  /** `s.endswith(p)` */
  predicate EndsWith(s: string, p: string) {
    |p| <= |s| && s[|s| - |p|..] == p
  }

  /** The joined text ends with the separator and the last part. */
  lemma {:induction false} JoinLast(parts: seq<string>, sep: string)
    requires |parts| >= 2
    ensures Join(parts, sep) == Join(parts[..|parts| - 1], sep) + sep + parts[|parts| - 1]
  {
    var n := |parts|;
    if n == 2 {
      assert parts[..1] == [parts[0]];
    } else {
      var front := parts[..n - 1];
      JoinLast(parts[1..], sep);
      assert parts[1..][..n - 2] == front[1..];
      assert parts[1..][n - 2] == parts[n - 1];
      assert Join(parts[1..], sep) == Join(front[1..], sep) + sep + parts[n - 1];
      assert Join(front, sep) == front[0] + sep + Join(front[1..], sep);
      assert front[0] == parts[0];
    }
  }

  /** The joined text ends with the separator and the last part. */
  lemma JoinEndsWith(parts: seq<string>, sep: string)
    requires |parts| >= 2
    ensures EndsWith(Join(parts, sep), sep + parts[|parts| - 1])
  {
    var front := Join(parts[..|parts| - 1], sep);
    JoinLast(parts, sep);
    assert front + sep + parts[|parts| - 1] == front + (sep + parts[|parts| - 1]);
    EndsWithAppend(front, sep + parts[|parts| - 1]);
  }

  /** The joined text starts with the first part. */
  lemma JoinFirst(parts: seq<string>, sep: string)
    requires |parts| >= 1
    ensures StartsWith(Join(parts, sep), parts[0])
  {
    if |parts| >= 2 {
      var tail := sep + Join(parts[1..], sep);
      assert Join(parts, sep) == parts[0] + tail;
      assert (parts[0] + tail)[..|parts[0]|] == parts[0];
    }
  }

  /** The joined text starts with the first character of the first part. */
  lemma JoinFirstChar(parts: seq<string>, sep: string)
    requires |parts| >= 1 && parts[0] != ""
    ensures Join(parts, sep) != "" && Join(parts, sep)[0] == parts[0][0]
  {
    if |parts| >= 2 {
      assert Join(parts, sep) == parts[0] + (sep + Join(parts[1..], sep));
    }
  }

  /** The joined text ends with the last character of the last part. */
  lemma JoinLastChar(parts: seq<string>, sep: string)
    requires |parts| >= 1 && parts[|parts| - 1] != ""
    ensures Join(parts, sep) != "" && Join(parts, sep)[|Join(parts, sep)| - 1] == parts[|parts| - 1][|parts[|parts| - 1]| - 1]
  {
    if |parts| >= 2 {
      JoinLast(parts, sep);
      var front := Join(parts[..|parts| - 1], sep) + sep;
      assert Join(parts, sep) == front + parts[|parts| - 1];
    }
  }

  /** Text ends with whatever was appended to it last. */
  lemma EndsWithAppend(a: string, b: string)
    ensures EndsWith(a + b, b)
  {
    assert (a + b)[|a + b| - |b|..] == b;
  }

  /** The joined text starts with the first two parts and a separator between them. */
  lemma JoinFirstTwo(parts: seq<string>, sep: string)
    requires |parts| >= 2
    ensures StartsWith(Join(parts, sep), parts[0] + sep + parts[1])
  {
    var tail := Join(parts[1..], sep);
    if |parts| == 2 {
      assert tail == parts[1];
    } else {
      assert tail == parts[1] + sep + Join(parts[2..], sep);
    }
    assert (parts[0] + sep + tail)[..|parts[0] + sep + parts[1]|] == parts[0] + sep + parts[1];
  }

  /** Parts and separator free of `c` join into a text free of `c`. */
  lemma {:induction false} JoinFree(parts: seq<string>, sep: string, c: char)
    requires c !in sep && forall k :: 0 <= k < |parts| ==> c !in parts[k]
    ensures c !in Join(parts, sep)
  {
    if |parts| > 1 {
      JoinFree(parts[1..], sep, c);
    }
  }

  /** Splitting and joining back with the same separator gives the string back. */
  lemma {:induction false} JoinSplit(s: string, sep: string)
    requires |sep| > 0
    ensures Join(Split(s, sep), sep) == s
    decreases |s|
  {
    if |s| < |sep| {
    } else if s[..|sep|] == sep {
      JoinSplit(s[|sep|..], sep);
      JoinSplitSep(sep, s[|sep|..]);
      assert s == sep + s[|sep|..];
    } else {
      JoinSplit(s[1..], sep);
      JoinSplitChar(s, sep);
    }
  }

  /** A text starting with the separator splits into an empty part and the rest's parts. */
  lemma JoinSplitSep(sep: string, t: string)
    requires 0 < |sep|
    requires Join(Split(t, sep), sep) == t
    ensures Join(Split(sep + t, sep), sep) == sep + t
  {
    var s := sep + t;
    assert s[..|sep|] == sep && s[|sep|..] == t;
    var rest := Split(t, sep);
    assert Split(s, sep) == [""] + rest;
    JoinCons("", rest, sep);
    assert "" + sep == sep;
  }

  /** A text not starting with the separator glues its first character onto the rest's first part. */
  lemma JoinSplitChar(s: string, sep: string)
    requires 0 < |sep| <= |s| && s[..|sep|] != sep
    requires Join(Split(s[1..], sep), sep) == s[1..]
    ensures Join(Split(s, sep), sep) == s
  {
    var rest := Split(s[1..], sep);
    assert Split(s, sep) == [[s[0]] + rest[0]] + rest[1..];
    JoinGlue([s[0]], rest, sep);
    assert s == [s[0]] + s[1..];
  }

  /** Joining a part in front of a non-empty list puts it before the separator. */
  lemma JoinCons(x: string, parts: seq<string>, sep: string)
    requires parts != []
    ensures Join([x] + parts, sep) == x + sep + Join(parts, sep)
  {
    assert ([x] + parts)[1..] == parts;
  }

  /** Gluing text onto the first part glues it onto the joined text. */
  lemma JoinGlue(c: string, parts: seq<string>, sep: string)
    requires parts != []
    ensures Join([c + parts[0]] + parts[1..], sep) == c + Join(parts, sep)
  {
    if |parts| > 1 {
      JoinCons(c + parts[0], parts[1..], sep);
    }
  }

  /** A string free of the separator's first character splits into itself alone. */
  lemma {:induction false} SplitNone(s: string, sep: string)
    requires |sep| > 0 && sep[0] !in s
    ensures Split(s, sep) == [s]
    decreases |s|
  {
    if |s| >= |sep| {
      assert s[0] in s;
      assert s[..|sep|][0] == s[0];
      assert forall x :: x in s[1..] ==> x in s;
      SplitNone(s[1..], sep);
      assert [s[0]] + s[1..] == s;
    }
  }

  /** A first piece free of the separator's first character is split off whole. */
  lemma {:induction false} SplitHead(a: string, sep: string, rest: string)
    requires |sep| > 0 && sep[0] !in a
    ensures Split(a + sep + rest, sep) == [a] + Split(rest, sep)
    decreases |a|
  {
    var s := a + sep + rest;
    if a == [] {
      assert s == sep + rest && s[..|sep|] == sep && s[|sep|..] == rest;
    } else {
      assert s[0] == a[0] && s[..|sep|][0] == a[0] && a[0] in a;
      assert forall x :: x in a[1..] ==> x in a;
      SplitHead(a[1..], sep, rest);
      assert s[1..] == a[1..] + sep + rest;
      assert [s[0]] + a[1..] == a;
    }
  }

  /** Pieces free of the separator's first character, joined and split again, come back. */
  lemma {:induction false} SplitJoin(parts: seq<string>, sep: string)
    requires |parts| >= 1 && |sep| > 0
    requires forall k :: 0 <= k < |parts| ==> sep[0] !in parts[k]
    ensures Split(Join(parts, sep), sep) == parts
  {
    if |parts| == 1 {
      SplitNone(parts[0], sep);
    } else {
      SplitJoin(parts[1..], sep);
      SplitHead(parts[0], sep, Join(parts[1..], sep));
      assert [parts[0]] + parts[1..] == parts;
    }
  }

  /** A string holding the separator character splits into at least two pieces. */
  lemma SplitAtLeastTwo(s: string, c: char)
    requires c in s
    ensures |Split(s, [c])| >= 2
  {
    SplitCharCount(s, c);
    CountPositive(s, c);
  }

  lemma {:induction false} CountPositive(s: string, c: char)
    requires c in s
    ensures Count(s, c) > 0
  {
    if s[0] != c {
      assert c in s[1..];
      CountPositive(s[1..], c);
    }
  }

  /** Number of occurrences of `c` in `s`. */
  function Count(s: string, c: char): nat {
    if s == "" then 0 else (if s[0] == c then 1 else 0) + Count(s[1..], c)
  }

  /** Splitting on one character gives one piece more than it has occurrences. */
  lemma {:induction false} SplitCharCount(s: string, c: char)
    ensures |Split(s, [c])| == Count(s, c) + 1
    decreases |s|
  {
    if |s| == 0 {
    } else if s[..1] == [c] {
      SplitCharCount(s[1..], c);
    } else {
      SplitCharCount(s[1..], c);
    }
  }

  /** `s.split()`: the maximal runs of non-whitespace characters. */
  function Words(s: string): seq<string>
    decreases |s|
  {
    var t := TrimLeft(s, Whitespace);
    if t == "" then []
    else
      var n := WordLength(t);
      [t[..n]] + Words(t[n..])
  }

  /** A non-empty run of non-whitespace characters. */
  predicate Word(s: string) {
    s != "" && forall k :: 0 <= k < |s| ==> !IsSpace(s[k])
  }

  /** Words joined by single spaces split back into the same words. */
  lemma {:induction false} WordsJoin(ws: seq<string>)
    requires forall k :: 0 <= k < |ws| ==> Word(ws[k])
    ensures Words(Join(ws, " ")) == ws
  {
    if |ws| == 1 {
      WordsOne(ws[0]);
    } else if |ws| > 1 {
      var rest := ws[1..];
      assert forall k :: 0 <= k < |rest| ==> Word(rest[k]) by {
        forall k | 0 <= k < |rest| ensures Word(rest[k]) { assert rest[k] == ws[k + 1]; }
      }
      WordsJoin(rest);
      WordsJoinStep(ws);
    }
  }

  /** One step of `WordsJoin`: the first word comes off the front of the joined text. */
  lemma WordsJoinStep(ws: seq<string>)
    requires |ws| > 1 && Word(ws[0])
    requires Words(Join(ws[1..], " ")) == ws[1..]
    ensures Words(Join(ws, " ")) == ws
  {
    assert Join(ws, " ") == ws[0] + " " + Join(ws[1..], " ");
    WordsCons(ws[0], Join(ws[1..], " "));
    assert [ws[0]] + ws[1..] == ws;
  }

  /** A word holds no newline. */
  lemma WordOneLine(s: string)
    requires Word(s)
    ensures '\n' !in s
  {
    forall k | 0 <= k < |s|
      ensures s[k] != '\n'
    {
      assert !IsSpace(s[k]);
    }
  }

  /** A formatted integer is a single word. */
  lemma IntToStringWord(i: int)
    ensures Word(IntToString(i))
  {
    var s := IntToString(i);
    if i < 0 {
      assert forall k :: 1 <= k < |s| ==> s[k] == NatToString(-i)[k - 1];
    }
  }

  /** Leading whitespace does not change the words. */
  lemma WordsSpace(rest: string)
    ensures Words(" " + rest) == Words(rest)
  {
    assert (" " + rest)[1..] == rest;
  }

  /** A first word free of whitespace and followed by a space is split off whole. */
  lemma WordsCons(w: string, rest: string)
    requires w != "" && forall k :: 0 <= k < |w| ==> !IsSpace(w[k])
    ensures Words(w + " " + rest) == [w] + Words(rest)
  {
    WordsConsAt(w, " " + rest, w + " " + rest);
    WordsSpace(rest);
  }

  lemma WordsConsAt(w: string, tail: string, s: string)
    requires w != "" && forall k :: 0 <= k < |w| ==> !IsSpace(w[k])
    requires tail == "" || IsSpace(tail[0])
    requires s == w + tail
    ensures Words(s) == [w] + Words(tail)
  {
    assert TrimLeft(s, Whitespace) == s by {
      assert s[0] == w[0];
    }
    WordLengthPrefix(w, tail);
    assert s[..|w|] == w && s[|w|..] == tail;
  }

  /** A single word free of whitespace is its own split. */
  lemma WordsOne(w: string)
    requires w != "" && forall k :: 0 <= k < |w| ==> !IsSpace(w[k])
    ensures Words(w) == [w]
  {
    WordsConsAt(w, "", w);
  }

  lemma {:induction false} WordLengthPrefix(w: string, rest: string)
    requires forall k :: 0 <= k < |w| ==> !IsSpace(w[k])
    requires rest == "" || IsSpace(rest[0])
    ensures WordLength(w + rest) == |w|
    decreases |w|
  {
    if w != [] {
      assert (w + rest)[1..] == w[1..] + rest;
      WordLengthPrefix(w[1..], rest);
    } else {
      assert w + rest == rest;
    }
  }

  /** Length of the run of non-whitespace characters `s` starts with. */
  function WordLength(s: string): (n: nat)
    ensures n <= |s|
    ensures forall k :: 0 <= k < n ==> !IsSpace(s[k])
    ensures n == |s| || IsSpace(s[n])
  {
    if |s| > 0 && !IsSpace(s[0]) then 1 + WordLength(s[1..]) else 0
  }

  /** `s.rpartition(c)[0]`: the text before the last `c`, or "" when there is none. */
  function RPartitionHead(s: string, c: char): (r: string)
    ensures |r| < |s| || r == ""
    ensures r == "" || (s[|r|] == c && r == s[..|r|])
    ensures forall k :: |r| < k < |s| ==> s[k] != c
    ensures r == "" && |s| > 0 && s[0] != c ==> forall k :: 0 <= k < |s| ==> s[k] != c
  {
    if |s| == 0 then ""
    else if s[|s| - 1] == c then s[..|s| - 1]
    else RPartitionHead(s[..|s| - 1], c)
  }

  /** The last `c` sits at `i` when none follows it: the head is everything before it. */
  lemma {:induction false} RPartitionAt(s: string, c: char, i: nat)
    requires i < |s| && s[i] == c
    requires forall k :: i < k < |s| ==> s[k] != c
    ensures RPartitionHead(s, c) == s[..i]
    decreases |s|
  {
    if i < |s| - 1 {
      var front := s[..|s| - 1];
      RPartitionAt(front, c, i);
      assert front[..i] == s[..i];
    }
  }

  // ---------------------------------------------------------------- file lines

  /** Length of the first line of `s`, its newline included (what `readlines` cuts off). */
  function LineLength(s: string): (n: nat)
    requires s != ""
    ensures 0 < n <= |s|
    ensures forall k :: 0 <= k < n - 1 ==> s[k] != '\n'
    ensures s[n - 1] == '\n' || n == |s|
  {
    if s[0] == '\n' || |s| == 1 then 1 else 1 + LineLength(s[1..])
  }

  /** `f.readlines()`: the lines of `s`, each keeping its newline. */
  function ReadLines(s: string): seq<string>
    decreases |s|
  {
    if s == "" then [] else var n := LineLength(s); [s[..n]] + ReadLines(s[n..])
  }

  /** `f.writelines(lines)` into an empty file: the lines one after the other. */
  function Concat(lines: seq<string>): string {
    if lines == [] then "" else lines[0] + Concat(lines[1..])
  }

  lemma ConcatAppend(a: seq<string>, b: seq<string>)
    ensures Concat(a + b) == Concat(a) + Concat(b)
  {
    if a == [] {
      assert a + b == b;
    } else {
      assert (a + b)[0] == a[0];
      assert (a + b)[1..] == a[1..] + b;
      ConcatAppend(a[1..], b);
    }
  }

  /** Reading a file's lines and writing them back gives the same content. */
  lemma {:induction false} ConcatReadLines(s: string)
    ensures Concat(ReadLines(s)) == s
    decreases |s|
  {
    if s != "" {
      var n := LineLength(s);
      ConcatReadLines(s[n..]);
      assert s == s[..n] + s[n..];
    }
  }

  /** A single line: non-empty, newline-terminated, with no newline before its end. */
  predicate IsLine(a: string) {
    a != "" && a[|a| - 1] == '\n' && forall k :: 0 <= k < |a| - 1 ==> a[k] != '\n'
  }

  /** Appending a newline-terminated line to content that is empty or ends with a newline
      adds exactly that line to what `readlines` returns. */
  lemma {:induction false} ReadLinesAppend(s: string, line: string)
    requires s == "" || s[|s| - 1] == '\n'
    requires IsLine(line)
    ensures ReadLines(s + line) == ReadLines(s) + [line]
    decreases |s|
  {
    if s == "" {
      ReadLinesCons(line, "");
      assert s + line == line + "";
    } else {
      var n := LineLength(s);
      FirstLine(s);
      ReadLinesAppend(s[n..], line);
      ReadLinesFront(s);
      ReadLinesFront(s + line);
      LineLengthPrefix(s, line);
      SliceAppend(s, line, n);
      ConsSnoc(s[..n], ReadLines(s[n..]), line);
    }
  }

  /** The first line of content ending in a newline is a line, and what follows it is empty or
      ends in that newline too. */
  lemma FirstLine(s: string)
    requires s != "" && s[|s| - 1] == '\n'
    ensures IsLine(s[..LineLength(s)])
    ensures var b := s[LineLength(s)..]; b == "" || b[|b| - 1] == '\n'
  {
    var n := LineLength(s);
    assert s[..n][n - 1] == s[n - 1];
    if n < |s| {
      assert s[n..][|s| - n - 1] == s[|s| - 1];
    }
  }

  lemma ConsSnoc<T>(x: T, xs: seq<T>, y: T)
    ensures [x] + (xs + [y]) == ([x] + xs) + [y]
  {
  }

  /** Cutting inside the left operand of a concatenation. */
  lemma SliceAppend(s: string, t: string, n: nat)
    requires n <= |s|
    ensures (s + t)[..n] == s[..n] && (s + t)[n..] == s[n..] + t
  {
  }

  /** `readlines` takes the first line off the front. */
  lemma ReadLinesFront(s: string)
    requires s != ""
    ensures ReadLines(s) == [s[..LineLength(s)]] + ReadLines(s[LineLength(s)..])
  {
  }

  /** Text after a newline-terminated prefix does not move the first line's end. */
  lemma {:induction false} LineLengthPrefix(s: string, t: string)
    requires s != "" && s[|s| - 1] == '\n'
    ensures LineLength(s + t) == LineLength(s)
    decreases |s|
  {
    if s[0] != '\n' {
      assert |s| > 1;
      assert (s + t)[1..] == s[1..] + t;
      LineLengthPrefix(s[1..], t);
    }
  }

  /** A first line in front of any text is read as that line, then the text's lines. */
  lemma ReadLinesCons(a: string, x: string)
    requires IsLine(a)
    ensures ReadLines(a + x) == [a] + ReadLines(x)
  {
    LineLengthOf(a, x);
    assert (a + x)[..|a|] == a && (a + x)[|a|..] == x;
  }

  /** `readlines` cuts the first line at its newline, whatever follows it. */
  lemma {:induction false} LineLengthOf(a: string, x: string)
    requires IsLine(a)
    ensures LineLength(a + x) == |a|
    decreases |a|
  {
    if |a| > 1 {
      assert (a + x)[0] == a[0] != '\n';
      assert (a + x)[1..] == a[1..] + x;
      LineLengthOf(a[1..], x);
    }
  }


  // ---------------------------------------------------------------- integers

  predicate IsDigit(c: char) {
    '0' <= c <= '9'
  }

  predicate AllDigits(s: string) {
    forall k :: 0 <= k < |s| ==> IsDigit(s[k])
  }

  function DigitChar(d: nat): (c: char)
    requires d < 10
    ensures IsDigit(c) && c as int - '0' as int == d
  {
    ('0' as int + d) as char
  }

  /** The value of a string of decimal digits. */
  function DigitsValue(s: string): nat
    requires AllDigits(s)
  {
    if s == "" then 0 else 10 * DigitsValue(s[..|s| - 1]) + (s[|s| - 1] as int - '0' as int)
  }

  /** `'%d' % n` for a natural number. */
  function NatToString(n: nat): (r: string)
    ensures r != "" && AllDigits(r)
  {
    if n < 10 then [DigitChar(n)] else NatToString(n / 10) + [DigitChar(n % 10)]
  }

  /** `'%d' % i` */
  function IntToString(i: int): (r: string)
    ensures r != "" && IsDigit(r[|r| - 1])
  {
    if i < 0 then "-" + NatToString(-i) else NatToString(i)
  }

  /** `int(s)` in base 10: surrounding whitespace, an optional sign, decimal digits;
      anything else raises `ValueError`, modelled as None. */
  function ParseInt(s: string): (r: Option<int>)
    ensures r.Some? ==> Strip(s) != ""
  {
    var t := Strip(s);
    if t != "" && (t[0] == '-' || t[0] == '+') then
      var d := t[1..];
      if d != "" && AllDigits(d) then
        var v: int := DigitsValue(d);
        Some(if t[0] == '-' then -v else v)
      else None
    else if t != "" && AllDigits(t) then Some(DigitsValue(t))
    else None
  }

  lemma {:induction false} NatToStringValue(n: nat)
    ensures DigitsValue(NatToString(n)) == n
  {
    if n >= 10 {
      NatToStringValue(n / 10);
      var s := NatToString(n);
      assert s[..|s| - 1] == NatToString(n / 10);
    }
  }

  /** `int('%d' % i) == i`: formatting an integer and parsing it back is the identity. */
  lemma IntToStringParses(i: int)
    ensures ParseInt(IntToString(i)) == Some(i)
  {
    if i < 0 {
      NegativeParses(i, IntToString(i));
    } else {
      NatParses(i, IntToString(i));
    }
  }

  lemma NegativeParses(i: int, s: string)
    requires i < 0 && s == IntToString(i)
    ensures ParseInt(s) == Some(i)
  {
    assert s[1..] == NatToString(-i);
    assert IsDigit(s[|s| - 1]);
    StripKeeps(s);
    NatToStringValue(-i);
  }

  lemma NatParses(i: nat, s: string)
    requires s == IntToString(i)
    ensures ParseInt(s) == Some(i)
  {
    assert s == NatToString(i);
    assert IsDigit(s[0]);
    StripKeeps(s);
    NatToStringValue(i);
  }
}
