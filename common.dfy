/** Helpers shared by the modules of the backup sync model.
    Each one stands for a Python built-in that the program relies on:
    str.startswith / endswith / `in`, str.lower / upper (ASCII letters),
    str.split() and str.split(sep), str.strip(), PurePath.name and
    PurePath.suffix, the regular expression `\d+$`, and list slicing `s[:k]`. */
module Common {

  datatype Option<T> = None | Some(value: T)

  // ---------------------------------------------------------------------------
  // Prefixes, suffixes, substrings

  predicate StartsWith(s: string, prefix: string) {
    |prefix| <= |s| && s[..|prefix|] == prefix
  }

  predicate EndsWith(s: string, suffix: string) {
    |suffix| <= |s| && s[|s| - |suffix|..] == suffix
  }

  /** A string built of four parts starts with the first and ends with the last two. */
  lemma JoinAffixes(p: string, a: string, b: string, q: string)
    ensures StartsWith(p + a + b + q, p) && EndsWith(p + a + b + q, b + q)
  {
    var s := p + a + b + q;
    assert s[..|p|] == p;
    assert s[|s| - |b + q|..] == b + q;
  }

  /** Python's `sub in s`. */
  predicate Contains(s: string, sub: string)
    decreases |s|
  {
    StartsWith(s, sub) || (|s| > 0 && Contains(s[1..], sub))
  }

  // ---------------------------------------------------------------------------
  // Characters

  predicate IsDigit(c: char) { '0' <= c <= '9' }

  /** The ASCII characters Python's str.split() and str.strip() treat as whitespace. */
  predicate IsSpace(c: char) {
    var n := c as int;
    n == 32 || 9 <= n <= 13 || 28 <= n <= 31
  }

  predicate IsWordChar(c: char) {
    'a' <= c <= 'z' || 'A' <= c <= 'Z' || IsDigit(c) || c == '_'
  }

  function LowerChar(c: char): char {
    if 'A' <= c <= 'Z' then (c as int + 32) as char else c
  }

  function UpperChar(c: char): char {
    if 'a' <= c <= 'z' then (c as int - 32) as char else c
  }

  function Lower(s: string): (r: string)
    ensures |r| == |s|
    ensures forall i :: 0 <= i < |s| ==> r[i] == LowerChar(s[i])
  {
    seq(|s|, i requires 0 <= i < |s| => LowerChar(s[i]))
  }

  function Upper(s: string): (r: string)
    ensures |r| == |s|
    ensures forall i :: 0 <= i < |s| ==> r[i] == UpperChar(s[i])
  {
    seq(|s|, i requires 0 <= i < |s| => UpperChar(s[i]))
  }

  // ---------------------------------------------------------------------------
  // The regular expression `\d+$`

  predicate EndsWithDigit(s: string) {
    |s| > 0 && IsDigit(s[|s| - 1])
  }

  /** `re.sub(r'\d+$', '', s)`: the longest prefix that does not end in a digit,
      such that everything after it is a digit. */
  function StripTrailingDigits(s: string): (r: string)
    ensures |r| <= |s| && s[..|r|] == r
    ensures !EndsWithDigit(r)
    ensures forall i :: |r| <= i < |s| ==> IsDigit(s[i])
    decreases |s|
  {
    if EndsWithDigit(s) then StripTrailingDigits(s[..|s| - 1]) else s
  }

  // ---------------------------------------------------------------------------
  // Splitting and stripping

  /** Number of leading characters that are not whitespace. */
  function WordLength(s: string): (n: nat)
    ensures n <= |s|
    ensures forall i :: 0 <= i < n ==> !IsSpace(s[i])
    ensures n < |s| ==> IsSpace(s[n])
  {
    if s == [] || IsSpace(s[0]) then 0 else 1 + WordLength(s[1..])
  }

  /** Python's `s.split()`: the maximal runs of non-whitespace characters. */
  function Words(s: string): (r: seq<string>)
    ensures forall k :: 0 <= k < |r| ==> r[k] != []
    decreases |s|
  {
    if s == [] then []
    else if IsSpace(s[0]) then Words(s[1..])
    else
      var n := WordLength(s);
      [s[..n]] + Words(s[n..])
  }

  predicate IsWord(w: string) {
    w != [] && forall i :: 0 <= i < |w| ==> !IsSpace(w[i])
  }

  /** A word followed by whitespace or by nothing is read whole. */
  lemma {:induction false} WordLengthOfWord(w: string, rest: string)
    requires forall i :: 0 <= i < |w| ==> !IsSpace(w[i])
    requires rest == [] || IsSpace(rest[0])
    ensures WordLength(w + rest) == |w|
  {
    if w != [] {
      assert (w + rest)[1..] == w[1..] + rest;
      WordLengthOfWord(w[1..], rest);
    } else {
      assert w + rest == rest;
    }
  }

  /** Splitting a word followed by a whitespace character and more text gives
      that word, then the words of the text. */
  lemma WordsOfWord(w: string, rest: string)
    requires IsWord(w)
    ensures Words(w + " " + rest) == [w] + Words(rest)
  {
    var s := w + " " + rest;
    WordLengthOfWord(w, " " + rest);
    assert s == w + (" " + rest);
    assert s[..|w|] == w;
    assert s[|w|..] == " " + rest;
    assert (" " + rest)[1..] == rest;
  }

  /** Python's `"a b c".split()` for three words. */
  lemma WordsOfThree(a: string, b: string, c: string)
    requires IsWord(a) && IsWord(b) && IsWord(c)
    ensures Words(a + " " + b + " " + c) == [a, b, c]
  {
    WordLengthOfWord(c, "");
    assert c + "" == c;
    assert c[..|c|] == c && c[|c|..] == [];
    assert Words(c) == [c];
    WordsOfWord(b, c);
    assert a + " " + b + " " + c == a + " " + (b + " " + c);
    WordsOfWord(a, b + " " + c);
  }

  /** Python's `s.split(sep)` for a one-character separator: always at least one piece. */
  function SplitOn(s: string, sep: char): (r: seq<string>)
    ensures |r| >= 1
    decreases |s|
  {
    if s == [] then [""]
    else
      var rest := SplitOn(s[1..], sep);
      if s[0] == sep then [""] + rest else [[s[0]] + rest[0]] + rest[1..]
  }

  function TrimStart(s: string): (r: string)
    ensures |r| <= |s| && r == s[|s| - |r|..]
    ensures r != [] ==> !IsSpace(r[0])
  {
    if s != [] && IsSpace(s[0]) then TrimStart(s[1..]) else s
  }

  function TrimEnd(s: string): (r: string)
    ensures |r| <= |s| && r == s[..|r|]
    ensures r != [] ==> !IsSpace(r[|r| - 1])
  {
    if s != [] && IsSpace(s[|s| - 1]) then TrimEnd(s[..|s| - 1]) else s
  }

  /** Python's `s.strip()`. */
  function Strip(s: string): string {
    TrimEnd(TrimStart(s))
  }

  // ---------------------------------------------------------------------------
  // Paths

  /** `glob("*" + suffix)` over a directory's names: the names ending in `suffix`,
      in enumeration order. */
  function Glob(names: seq<string>, suffix: string): (r: seq<string>)
    ensures |r| <= |names|
    ensures forall n :: n in r <==> n in names && EndsWith(n, suffix)
  {
    if names == [] then []
    else if EndsWith(names[0], suffix) then [names[0]] + Glob(names[1..], suffix)
    else Glob(names[1..], suffix)
  }

  /** Index of the last occurrence of `c` in `s`. */
  function LastIndexOf(s: string, c: char): (r: Option<nat>)
    ensures r.Some? ==> r.value < |s| && s[r.value] == c
    ensures r.Some? ==> forall j :: r.value < j < |s| ==> s[j] != c
    ensures r.None? ==> forall j :: 0 <= j < |s| ==> s[j] != c
  {
    if s == [] then None
    else if s[|s| - 1] == c then Some(|s| - 1)
    else LastIndexOf(s[..|s| - 1], c)
  }

  /** `PurePath(path).name`: the part after the last '/'. */
  function FileName(path: string): (r: string)
    ensures forall j :: 0 <= j < |r| ==> r[j] != '/'
    ensures EndsWith(path, r)
  {
    match LastIndexOf(path, '/')
    case None => path
    case Some(i) => path[i + 1..]
  }

  /** `PurePath(name).suffix`: from the last dot on, provided that dot is
      neither the first nor the last character; otherwise empty. */
  function Suffix(name: string): string {
    match LastIndexOf(name, '.')
    case Some(i) => if 0 < i < |name| - 1 then name[i..] else ""
    case None => ""
  }

  /** The last occurrence is at `k` when `c` is there and nowhere after it. */
  lemma LastIndexOfAt(s: string, c: char, k: nat)
    requires k < |s| && s[k] == c
    requires forall j :: k < j < |s| ==> s[j] != c
    ensures LastIndexOf(s, c) == Some(k)
  {
  }

  /** A name has the suffix ".tar" exactly when it ends in ".tar" and has at
      least one character before that dot (so ".tar" itself does not). */
  lemma SuffixTar(name: string)
    ensures Suffix(name) == ".tar" <==> EndsWith(name, ".tar") && |name| > 4
  {
    var n := |name|;
    if EndsWith(name, ".tar") {
      assert name[n - 4..] == ".tar";
      assert name[n - 4] == '.' && name[n - 3] == 't' && name[n - 2] == 'a' && name[n - 1] == 'r';
      LastIndexOfAt(name, '.', n - 4);
    }
    match LastIndexOf(name, '.')
    case None =>
    case Some(i) =>
      if Suffix(name) == ".tar" {
        assert name[i..] == ".tar";
        assert name[n - 4..] == name[i..];
      }
  }

  // ---------------------------------------------------------------------------
  // Slicing

  /** Python's `s[:k]`, including a negative `k` counted from the end. */
  function SliceTo<T>(s: seq<T>, k: int): (r: seq<T>)
    ensures |r| == if k >= 0 then (if k <= |s| then k else |s|)
                   else (if |s| + k >= 0 then |s| + k else 0)
    ensures r == s[..|r|]
  {
    if k >= 0 then (if k <= |s| then s[..k] else s)
    else (if |s| + k >= 0 then s[..|s| + k] else [])
  }

  /** Python's `s[k:]` for a non-negative `k`. */
  function SliceFrom<T>(s: seq<T>, k: nat): (r: seq<T>)
    ensures |r| == if k <= |s| then |s| - k else 0
  {
    if k <= |s| then s[k..] else []
  }

  /** `s[:k] + s[k:] == s` for a non-negative `k`. */
  lemma SliceSplit<T>(s: seq<T>, k: nat)
    ensures SliceTo(s, k) + SliceFrom(s, k) == s
  {
    if k <= |s| {
      assert s[..k] + s[k..] == s;
    }
  }

  // ---------------------------------------------------------------------------
  // Subsequences

  /** `a` is `b` with some elements left out, the rest kept in order. */
  predicate IsSubsequence<T(==)>(a: seq<T>, b: seq<T>)
    decreases |b|
  {
    if a == [] then true
    else if b == [] then false
    else if a[0] == b[0] then IsSubsequence(a[1..], b[1..])
    else IsSubsequence(a, b[1..])
  }

  lemma {:induction false} SubsequenceRefl<T>(a: seq<T>)
    ensures IsSubsequence(a, a)
  {
    if a != [] {
      SubsequenceRefl(a[1..]);
    }
  }

  /** A subsequence stays one when the longer list gains a first element. */
  lemma {:induction false} SubsequenceCons<T>(a: seq<T>, b: seq<T>)
    requires b != [] && IsSubsequence(a, b[1..])
    ensures IsSubsequence(a, b)
    decreases |b|, |a|
  {
    if a != [] && a[0] == b[0] {
      SubsequenceTail(a, b[1..]);
    }
  }

  /** Dropping the first element of a subsequence leaves a subsequence. */
  lemma {:induction false} SubsequenceTail<T>(a: seq<T>, b: seq<T>)
    requires a != [] && IsSubsequence(a, b)
    ensures IsSubsequence(a[1..], b)
    decreases |b|, |a|
  {
    if a[0] == b[0] {
      SubsequenceCons(a[1..], b);
    } else {
      SubsequenceTail(a, b[1..]);
      SubsequenceCons(a[1..], b);
    }
  }

  /** A subsequence of a subsequence is a subsequence. */
  lemma {:induction false} SubsequenceTrans<T>(a: seq<T>, b: seq<T>, c: seq<T>)
    requires IsSubsequence(a, b) && IsSubsequence(b, c)
    ensures IsSubsequence(a, c)
    decreases |c|
  {
    if a != [] {
      if b[0] == c[0] {
        if a[0] == b[0] {
          SubsequenceTrans(a[1..], b[1..], c[1..]);
        } else {
          SubsequenceTrans(a, b[1..], c[1..]);
          SubsequenceCons(a, c);
        }
      } else {
        SubsequenceTrans(a, b, c[1..]);
        SubsequenceCons(a, c);
      }
    }
  }

  // ---------------------------------------------------------------------------
  // Defaults

  /** Python's `value or fallback` on an optional string. */
  function OrDefault(value: Option<string>, fallback: string): (r: string)
    ensures value.Some? && value.value != "" ==> r == value.value
    ensures value.None? || value.value == "" ==> r == fallback
  {
    if value.Some? && value.value != "" then value.value else fallback
  }
}
