/** The App Store manager (src/managers/appstore.ts): reading `mas list` and `mas search`
    output with the two line patterns, installing, the refusal to uninstall, and the
    standalone `apply`. */
module AppStore {
  import opened Optional
  import opened Seqs
  import opened JsString
  import opened OrderedMap
  import opened Types
  import opened Shell

  // ---------------------------------------------------------------------------
  // The line patterns
  // ---------------------------------------------------------------------------
  // Both patterns start `^(\d+)\s+(.+?)\s+\(`. `\d` is an ASCII digit, `\s` is a white space
  // or line terminator character (`IsWhitespace`), `.` is any character but a line
  // terminator. The model follows the backtracking matcher: `\d+` and `\s+` are greedy and
  // give back characters one at a time, `.+?` is lazy and takes one more at a time.

  /** The length of the run of characters satisfying `p` that starts at `i`. */
  function Run(s: string, i: nat, p: char -> bool): (n: nat)
    requires i <= |s|
    ensures i + n <= |s|
    ensures forall j :: i <= j < i + n ==> p(s[j])
    ensures i + n == |s| || !p(s[i + n])
    decreases |s| - i
  {
    if i == |s| || !p(s[i]) then 0 else 1 + Run(s, i + 1, p)
  }

  /** No line terminator in `s[a..b]`: `.` can cover it. */
  predicate Dots(s: string, a: nat, b: nat)
    requires a <= b <= |s|
  {
    forall i :: a <= i < b ==> !IsLineTerminator(s[i])
  }

  /** `\s+\(` matches at `e`; the `(` is then at `e` plus the white-space run. */
  predicate SpaceParen(s: string, e: nat)
    requires e <= |s|
  {
    var j := e + Run(s, e, IsWhitespace);
    j > e && j < |s| && s[j] == '('
  }

  /** The end the lazy `.+?` settles on when its first character is `s[e - 1]`: the first
      end `x >= e` where the rest of the pattern (`ok`) matches, as long as every character
      taken is not a line terminator. */
  function LazyEnd(s: string, e: nat, ok: nat -> bool): (r: Option<nat>)
    requires 0 < e <= |s|
    ensures r.Some? ==> e <= r.value <= |s|
    decreases |s| - e
  {
    if IsLineTerminator(s[e - 1]) then None
    else if ok(e) then Some(e)
    else if e == |s| then None
    else LazyEnd(s, e + 1, ok)
  }

  /** What the lazy group settles on: the first end where the rest matches, with `.` covering
      every character taken; or nothing, when no such end exists. */
  lemma {:induction false} LazyEndSpec(s: string, e: nat, ok: nat -> bool)
    requires 0 < e <= |s|
    ensures var r := LazyEnd(s, e, ok);
      && (r.Some? ==>
           && ok(r.value) && Dots(s, e - 1, r.value)
           && forall x :: e <= x < r.value ==> !ok(x))
      && (r.None? ==> forall x :: e <= x <= |s| && Dots(s, e - 1, x) ==> !ok(x))
    decreases |s| - e
  {
    if !IsLineTerminator(s[e - 1]) && !ok(e) && e < |s| {
      LazyEndSpec(s, e + 1, ok);
      var r := LazyEnd(s, e + 1, ok);
      if r.None? {
        forall x | e <= x <= |s| && Dots(s, e - 1, x) ensures !ok(x) {
          if x > e {
            assert Dots(s, e, x);
          }
        }
      }
    }
  }

  /** The leftmost end wins: when `ok` first holds at `target` and `.` covers everything up to
      it, that is where the lazy group ends. */
  lemma LazyEndAt(s: string, e: nat, ok: nat -> bool, target: nat)
    requires 0 < e <= target <= |s|
    requires ok(target) && Dots(s, e - 1, target)
    requires forall x :: e <= x < target ==> !ok(x)
    ensures LazyEnd(s, e, ok) == Some(target)
  {
    LazyEndSpec(s, e, ok);
  }

  /** The group start the `\s+` before the name gives, tried from the longest white-space run
      down to a single character: the first start whose lazy name reaches a match. */
  function TryStarts(s: string, lo: nat, start: nat, ok: nat -> bool): (r: Option<(nat, nat)>)
    requires 0 < lo && start <= |s|
    ensures r.Some? ==> lo <= r.value.0 < r.value.1 <= |s| && r.value.0 <= start
    decreases start
  {
    if start < lo then None
    else
      var here := if start < |s| then LazyEnd(s, start + 1, ok) else None;
      if here.Some? then Some((start, here.value))
      else if start == lo then None
      else TryStarts(s, lo, start - 1, ok)
  }

  /** The common prefix `^(\d+)\s+(.+?)` followed by `rest`: the digit text and the bounds of
      the name group. */
  function MatchHead(s: string, rest: nat -> bool): (r: Option<(string, nat, nat)>)
    ensures r.Some? ==> AllDigits(r.value.0) && |r.value.0| > 0 && r.value.1 < r.value.2 <= |s|
  {
    var p := Run(s, 0, IsDigit);
    var k := Run(s, p, IsWhitespace);
    if p == 0 || k == 0 then None
    else
      match TryStarts(s, p + 1, p + k, rest)
      case None => None
      case Some((a, b)) => Some((s[..p], a, b))
  }

  /** The rest of the list pattern, `\s+\(`, as a test on the end of the name. */
  function ListRest(line: string): nat -> bool {
    (e: nat) => e <= |line| && SpaceParen(line, e)
  }

  /** `/^(\d+)\s+(.+?)\s+\(/` on a `mas list` line: the id and the trimmed name. */
  function MatchList(line: string): Option<(int, string)> {
    match MatchHead(line, ListRest(line))
    case None => None
    case Some((digits, a, b)) => Some((DigitsValue(digits), Trim(line[a..b])))
  }

  /** The lazy `(.+?)\)` whose first character is `s[k - 1]`: the first `)` at or after `k`,
      as long as no line terminator comes before it. */
  function CloseFrom(s: string, k: nat): (r: Option<nat>)
    requires 0 < k <= |s|
    ensures r.Some? ==> k <= r.value < |s|
    decreases |s| - k
  {
    if IsLineTerminator(s[k - 1]) then None
    else if k < |s| && s[k] == ')' then Some(k)
    else if k == |s| then None
    else CloseFrom(s, k + 1)
  }

  /** The first `)` after a stretch without line terminators or `)` closes the group. */
  lemma {:induction false} CloseFromAt(s: string, k: nat, target: nat)
    requires 0 < k <= target < |s| && s[target] == ')'
    requires forall i :: k - 1 <= i < target ==> !IsLineTerminator(s[i])
    requires forall i :: k <= i < target ==> s[i] != ')'
    ensures CloseFrom(s, k) == Some(target)
    decreases target - k
  {
    if k < target {
      CloseFromAt(s, k + 1, target);
    }
  }

  /** The version group of the search pattern: after the `(` at `j`, the lazy `(.+?)` up to
      the first `)` that leaves it at least one character. */
  function VersionEnd(s: string, j: nat): (r: Option<nat>)
    requires j < |s|
    ensures r.Some? ==> j + 2 <= r.value <= |s|
  {
    if j + 2 > |s| then None
    else CloseFrom(s, j + 2)
  }

  /** `\s+\((.+?)\)` at `e`: the bounds of the version group. */
  function SearchTail(s: string, e: nat): (r: Option<(nat, nat)>)
    requires e <= |s|
    ensures r.Some? ==> e + 2 <= r.value.0 < r.value.1 <= |s|
  {
    var j := e + Run(s, e, IsWhitespace);
    if j > e && j < |s| && s[j] == '(' then
      match VersionEnd(s, j)
      case Some(v) => Some((j + 1, v))
      case None => None
    else None
  }

  /** The rest of the search pattern as a test on the end of the name. */
  function SearchRest(line: string): nat -> bool {
    (e: nat) => e <= |line| && SearchTail(line, e).Some?
  }

  /** `/^(\d+)\s+(.+?)\s+\((.+?)\)/` on a `mas search` line: id, trimmed name, trimmed
      version. */
  function MatchSearch(line: string): Option<SearchHit> {
    match MatchHead(line, SearchRest(line))
    case None => None
    case Some((digits, a, b)) => HitAt(line, digits, a, b)
  }

  /** The search result once the head matched with the name in `line[a..b]`. */
  function HitAt(line: string, digits: string, a: nat, b: nat): Option<SearchHit>
    requires AllDigits(digits) && a <= b <= |line|
  {
    match SearchTail(line, b)
    case None => None
    case Some((vs, ve)) => Some(SearchHit(DigitsValue(digits), Trim(line[a..b]), Trim(line[vs..ve])))
  }

  datatype SearchHit = SearchHit(id: int, name: string, version: string)

  /** A name the list pattern gives back unchanged: not empty, no white space at either end,
      no line terminator, and no `(` (which could end it early). */
  predicate PlainName(n: string) {
    && |n| > 0 && !IsWhitespace(n[0]) && !IsWhitespace(n[|n| - 1])
    && forall i :: 0 <= i < |n| ==> !IsLineTerminator(n[i]) && n[i] != '('
  }

  /** The shape both patterns share: digits up to `p`, white space up to `a`, and a plain name
      up to `b`. */
  predicate HeadShape(line: string, p: nat, a: nat, b: nat) {
    && 0 < p < a < b <= |line|
    && (forall i :: 0 <= i < p ==> IsDigit(line[i]))
    && (forall i :: p <= i < a ==> IsWhitespace(line[i]))
    && !IsWhitespace(line[a]) && !IsWhitespace(line[b - 1])
    && forall i :: a <= i < b ==> !IsLineTerminator(line[i]) && line[i] != '('
  }

  /** A line laid out as `mas list` prints it, digits, spaces, the name, then ` (` and
      anything, reads back as that id and name. */
  lemma ListLineRoundTrip(digits: string, gap: string, name: string, tail: string)
    requires |digits| > 0 && AllDigits(digits)
    requires |gap| > 0 && AllWhitespace(gap)
    requires PlainName(name)
    ensures MatchList(digits + gap + name + " (" + tail) == Some((DigitsValue(digits), name))
  {
    var line := digits + gap + name + " (" + tail;
    var p, a, b := |digits|, |digits| + |gap|, |digits| + |gap| + |name|;
    assert line[..p] == digits && line[p..a] == gap && line[a..b] == name;
    assert line[b] == ' ' && line[b + 1] == '(';
    ListPieces(line, p, a, b, digits, gap, name);
  }

  /** A line cut into digits, a gap, a name and ` (` reads back as the digits and the name. */
  lemma ListPieces(line: string, p: nat, a: nat, b: nat, digits: string, gap: string, name: string)
    requires |digits| > 0 && AllDigits(digits)
    requires |gap| > 0 && AllWhitespace(gap)
    requires PlainName(name)
    requires p == |digits| && a == p + |gap| && b == a + |name| && b + 1 < |line|
    requires line[..p] == digits && line[p..a] == gap && line[a..b] == name
    requires line[b] == ' ' && line[b + 1] == '('
    ensures MatchList(line) == Some((DigitsValue(digits), name))
  {
    assert HeadShape(line, p, a, b) by {
      assert forall i :: 0 <= i < p ==> line[i] == digits[i];
      assert forall i :: p <= i < a ==> line[i] == gap[i - p];
      assert forall i :: a <= i < b ==> line[i] == name[i - a];
    }
    ListReadsBack(line, p, a, b, digits, name);
  }

  /** A line of the list shape whose digits and name are known reads back as them. */
  lemma ListReadsBack(line: string, p: nat, a: nat, b: nat, digits: string, name: string)
    requires HeadShape(line, p, a, b)
    requires b + 1 < |line| && line[b] == ' ' && line[b + 1] == '('
    requires line[..p] == digits && line[a..b] == name && PlainName(name)
    ensures AllDigits(digits)
    ensures MatchList(line) == Some((DigitsValue(digits), name))
  {
    ListAt(line, p, a, b);
    TrimNoOp(name);
  }

  /** The list pattern on a line of that shape followed by ` (` takes exactly the name. */
  lemma ListAt(line: string, p: nat, a: nat, b: nat)
    requires HeadShape(line, p, a, b)
    requires b + 1 < |line| && line[b] == ' ' && line[b + 1] == '('
    ensures AllDigits(line[..p])
    ensures MatchList(line) == Some((DigitsValue(line[..p]), Trim(line[a..b])))
  {
    var ok := ListRest(line);
    SpaceParenAt(line, b);
    NoSpaceParenInName(line, a, b);
    HeadAt(line, p, a, b, ok);
  }

  /** The same for `mas search`: `digits gap name (version)` reads back with the trimmed
      version. */
  lemma SearchLineRoundTrip(digits: string, gap: string, name: string, version: string, tail: string)
    requires |digits| > 0 && AllDigits(digits)
    requires |gap| > 0 && AllWhitespace(gap)
    requires PlainName(name)
    requires |version| > 0 && forall i :: 0 <= i < |version| ==> !IsLineTerminator(version[i]) && version[i] != ')'
    ensures MatchSearch(digits + gap + name + " (" + version + ")" + tail)
      == Some(SearchHit(DigitsValue(digits), name, Trim(version)))
  {
    var s1 := digits + gap;
    var s2 := s1 + name;
    var s3 := s2 + " (";
    var s4 := s3 + version;
    var s5 := s4 + ")";
    var line := s5 + tail;
    var p, a, b, c, v := |digits|, |s1|, |s2|, |s3|, |s4|;
    // Each piece of the line, peeled off the concatenation one layer at a time.
    InLeft(s5, tail, 0, p); InLeft(s4, ")", 0, p); InLeft(s3, version, 0, p); InLeft(s2, " (", 0, p);
    InLeft(s1, name, 0, p); AtLeft(digits, gap, p);
    InLeft(s5, tail, p, a); InLeft(s4, ")", p, a); InLeft(s3, version, p, a); InLeft(s2, " (", p, a);
    InLeft(s1, name, p, a); AtRight(digits, gap, p, a);
    InLeft(s5, tail, a, b); InLeft(s4, ")", a, b); InLeft(s3, version, a, b); InLeft(s2, " (", a, b);
    AtRight(s1, name, a, b);
    InLeft(s5, tail, b, c); InLeft(s4, ")", b, c); InLeft(s3, version, b, c); AtRight(s2, " (", b, c);
    InLeft(s5, tail, c, v); InLeft(s4, ")", c, v); AtRight(s3, version, c, v);
    var w := v + 1;
    InLeft(s5, tail, v, w); AtRight(s4, ")", v, w);
    SearchShapeAt(line, digits, gap, name, version, p, a, b, c, v, w);
  }

  /** A slice inside the left operand of a concatenation is a slice of that operand. */
  lemma InLeft(s: string, t: string, i: nat, k: nat)
    requires i <= k <= |s|
    ensures (s + t)[i..k] == s[i..k]
  {
  }

  /** The left operand of a concatenation, as a slice. */
  lemma AtLeft(s: string, t: string, k: nat)
    requires k == |s|
    ensures (s + t)[0..k] == s
  {
  }

  /** The right operand of a concatenation, as a slice. */
  lemma AtRight(s: string, t: string, i: nat, k: nat)
    requires i == |s| && k == i + |t|
    ensures (s + t)[i..k] == t
  {
  }

  /** A line whose slices are the digits, the gap, the name, ` (`, the version and `)` reads
      back as that search hit. */
  lemma SearchShapeAt(line: string, digits: string, gap: string, name: string, version: string,
                      p: nat, a: nat, b: nat, c: nat, v: nat, w: nat)
    requires |digits| > 0 && AllDigits(digits)
    requires |gap| > 0 && AllWhitespace(gap)
    requires PlainName(name)
    requires |version| > 0 && forall i :: 0 <= i < |version| ==> !IsLineTerminator(version[i]) && version[i] != ')'
    requires p == |digits| && a == p + |gap| && b == a + |name| && c == b + 2 && v == c + |version| && w == v + 1
    requires w <= |line|
    requires line[0..p] == digits && line[p..a] == gap && line[a..b] == name
    requires line[b..c] == " (" && line[c..v] == version && line[v..w] == ")"
    ensures MatchSearch(line) == Some(SearchHit(DigitsValue(digits), name, Trim(version)))
  {
    assert HeadShape(line, p, a, b) by {
      forall i | 0 <= i < p ensures IsDigit(line[i]) {
        assert line[i] == line[0..p][i];
      }
      forall i | p <= i < a ensures IsWhitespace(line[i]) {
        assert line[i] == line[p..a][i - p];
      }
      forall i | a <= i < b ensures !IsLineTerminator(line[i]) && line[i] != '(' {
        assert line[i] == line[a..b][i - a];
      }
      assert line[a] == name[0] && line[b - 1] == name[|name| - 1];
    }
    assert line[b] == line[b..c][0] && line[b + 1] == line[b..c][1];
    assert line[v] == line[v..w][0];
    forall i | c <= i < v ensures !IsLineTerminator(line[i]) && line[i] != ')' {
      assert line[i] == line[c..v][i - c];
    }
    assert line[b + 2..v] == version;
    VersionAt(line, b + 1, v);
    SearchAt(line, p, a, b, v);
    assert line[..p] == digits;
    TrimNoOp(name);
  }

  /** The search pattern on a line of that shape followed by ` (`, a version and `)`. */
  lemma SearchAt(line: string, p: nat, a: nat, b: nat, v: nat)
    requires HeadShape(line, p, a, b)
    requires b + 1 < |line| && line[b] == ' ' && line[b + 1] == '('
    requires VersionEnd(line, b + 1) == Some(v)
    ensures AllDigits(line[..p])
    ensures MatchSearch(line) == Some(SearchHit(DigitsValue(line[..p]), Trim(line[a..b]), Trim(line[b + 2..v])))
  {
    var ok := SearchRest(line);
    SearchTailAt(line, b, v);
    NoSearchTailInName(line, a, b);
    HeadAt(line, p, a, b, ok);
    var vs := b + 2;
    SearchFromHead(line, line[..p], a, b, vs, v);
  }

  /** The search result, given where the head and the tail matched. */
  lemma SearchFromHead(line: string, digits: string, a: nat, b: nat, vs: nat, v: nat)
    requires MatchHead(line, SearchRest(line)) == Some((digits, a, b))
    requires SearchTail(line, b) == Some((vs, v))
    ensures AllDigits(digits) && a <= b && vs <= v <= |line|
    ensures MatchSearch(line) == Some(SearchHit(DigitsValue(digits), Trim(line[a..b]), Trim(line[vs..v])))
  {
    assert MatchSearch(line) == HitAt(line, digits, a, b);
    HitAtTail(line, digits, a, b, vs, v);
  }

  /** The search result once the tail matched with the version in `line[vs..v]`. */
  lemma HitAtTail(line: string, digits: string, a: nat, b: nat, vs: nat, v: nat)
    requires AllDigits(digits) && a <= b <= |line|
    requires SearchTail(line, b) == Some((vs, v))
    ensures vs <= v <= |line|
    ensures HitAt(line, digits, a, b) == Some(SearchHit(DigitsValue(digits), Trim(line[a..b]), Trim(line[vs..v])))
  {
    var t := SearchTail(line, b).value;
    assert t.0 == vs && t.1 == v;
    assert line[t.0..t.1] == line[vs..v];
  }

  /** ` (` right after the name, then a version group ending at `v`. */
  lemma SearchTailAt(line: string, b: nat, v: nat)
    requires b + 1 < |line| && line[b] == ' ' && line[b + 1] == '('
    requires VersionEnd(line, b + 1) == Some(v)
    ensures SearchTail(line, b) == Some((b + 2, v))
  {
    SpaceParenAt(line, b);
  }

  lemma NoSearchTailInName(line: string, a: nat, b: nat)
    requires a < b <= |line| && !IsWhitespace(line[b - 1])
    requires forall i :: a <= i < b ==> line[i] != '('
    ensures forall x :: a < x < b ==> !SearchRest(line)(x)
  {
    NoSpaceParenInName(line, a, b);
    forall x | a < x < b ensures !SearchRest(line)(x) {
      assert !SpaceParen(line, x);
    }
  }

  /** After the `(` at `j`, a stretch free of line terminators and `)` up to the `)` at `v`
      is the version group. */
  lemma VersionAt(line: string, j: nat, v: nat)
    requires j + 2 <= v < |line| && line[v] == ')'
    requires forall i :: j + 1 <= i < v ==> !IsLineTerminator(line[i]) && line[i] != ')'
    ensures VersionEnd(line, j) == Some(v)
  {
    CloseFromAt(line, j + 2, v);
  }

  /** ` (` at `x`: the pattern `\s+\(` matches with a single space. */
  lemma SpaceParenAt(line: string, x: nat)
    requires x + 1 < |line| && line[x] == ' ' && line[x + 1] == '('
    ensures SpaceParen(line, x) && x + Run(line, x, IsWhitespace) == x + 1
  {
    RunExact(line, x, 1, IsWhitespace);
  }

  /** Inside a plain name, `\\s+\\(` never matches: a white-space run inside it ends on one of
      its characters, which is not `(`. */
  lemma NoSpaceParenInName(line: string, a: nat, b: nat)
    requires a < b <= |line| && !IsWhitespace(line[b - 1])
    requires forall i :: a <= i < b ==> line[i] != '('
    ensures forall x :: a < x < b ==> !SpaceParen(line, x)
  {
    forall x | a < x < b ensures !SpaceParen(line, x) {
      var j := x + Run(line, x, IsWhitespace);
    }
  }

  /** The head pattern on a line of that shape, when the rest of the pattern first matches
      right after the name, takes exactly the name. */
  lemma HeadAt(line: string, p: nat, a: nat, b: nat, ok: nat -> bool)
    requires HeadShape(line, p, a, b)
    requires ok(b) && forall x :: a < x < b ==> !ok(x)
    ensures MatchHead(line, ok) == Some((line[..p], a, b))
  {
    RunExact(line, 0, p, IsDigit);
    RunExact(line, p, a - p, IsWhitespace);
    LazyEndAt(line, a + 1, ok, b);
  }

  /** A run that ends where its predicate first fails has exactly that length. */
  lemma RunExact(s: string, i: nat, n: nat, p: char -> bool)
    requires i + n < |s|
    requires forall j :: i <= j < i + n ==> p(s[j])
    requires !p(s[i + n])
    ensures Run(s, i, p) == n
  {
  }

  /** Whatever a list line yields, the name has no white space at either end. */
  lemma ListNameTrimmed(line: string)
    requires MatchList(line).Some?
    ensures Trim(MatchList(line).value.1) == MatchList(line).value.1
  {
    TrimIdempotent(MatchHeadName(line));
  }

  function MatchHeadName(line: string): string
    requires MatchList(line).Some?
  {
    var h := MatchHead(line, ListRest(line)).value;
    line[h.1..h.2]
  }

  /** The start search only succeeds where the rest of the pattern matched. */
  lemma {:induction false} TryStartsOk(s: string, lo: nat, start: nat, ok: nat -> bool)
    requires 0 < lo && start <= |s|
    ensures var r := TryStarts(s, lo, start, ok); r.Some? ==> ok(r.value.1)
    decreases start
  {
    if start >= lo {
      if start < |s| {
        LazyEndSpec(s, start + 1, ok);
      }
      if start > lo {
        TryStartsOk(s, lo, start - 1, ok);
      }
    }
  }

  /** The head only matches where the rest of the pattern matched after the name. */
  lemma MatchHeadOk(s: string, rest: nat -> bool)
    ensures var r := MatchHead(s, rest); r.Some? ==> rest(r.value.2)
  {
    var p := Run(s, 0, IsDigit);
    var k := Run(s, p, IsWhitespace);
    if p > 0 && k > 0 {
      TryStartsOk(s, p + 1, p + k, rest);
    }
  }

  /** A line without `(` matches neither pattern: both end in `\s+\(`. */
  lemma NoParenNoMatch(line: string)
    requires forall i :: 0 <= i < |line| ==> line[i] != '('
    ensures MatchList(line).None? && MatchSearch(line).None?
  {
    assert forall e :: 0 <= e <= |line| ==> !SpaceParen(line, e);
    assert forall e :: 0 <= e <= |line| ==> SearchTail(line, e).None?;
    MatchHeadOk(line, ListRest(line));
    MatchHeadOk(line, SearchRest(line));
  }

  // ---------------------------------------------------------------------------
  // Reading the installed apps
  // ---------------------------------------------------------------------------

  const WhichMas := "which mas"
  const MasList := "mas list"

  /** The lines `split('\n')` gives, without the blank ones. */
  function Lines(stdout: string): seq<string> {
    Filter(Split(stdout, '\n'), (line: string) => Trim(line) != "")
  }

  /** The lines a pattern matches. */
  function Hits<T>(f: string -> Option<T>): string -> bool {
    (line: string) => f(line).Some?
  }

  /** The matches of a line pattern, in line order; lines it does not match are skipped. */
  function Matches<T(==)>(lines: seq<string>, f: string -> Option<T>): (r: seq<T>)
    ensures |r| <= |lines|
    ensures forall j :: 0 <= j < |lines| && f(lines[j]).Some? ==> f(lines[j]).value in r
    ensures InLineOrder(lines, f, r)
    decreases |lines|
  {
    if |lines| == 0 then
      assert Positions(lines, Hits(f), []);
      []
    else
      var rest := Matches(lines[1..], f);
      var r := if f(lines[0]).Some? then [f(lines[0]).value] + rest else rest;
      assert InLineOrder(lines, f, r) by { MatchesCons(lines, f, rest); }
      PickedFromLines(lines, f, r);
      r
  }

  /** `r` holds the matches of the matching lines, one per such line, in line order. */
  ghost predicate InLineOrder<T>(lines: seq<string>, f: string -> Option<T>, r: seq<T>) {
    exists idx :: && Positions(lines, Hits(f), idx)
                  && |idx| == |r|
                  && forall i :: 0 <= i < |r| ==> f(lines[idx[i]]) == Some(r[i])
  }

  /** A result picked from the matching lines in order misses none of them. */
  lemma PickedFromLines<T>(lines: seq<string>, f: string -> Option<T>, r: seq<T>)
    requires InLineOrder(lines, f, r)
    ensures forall j :: 0 <= j < |lines| && f(lines[j]).Some? ==> f(lines[j]).value in r
  {
    var idx :| && Positions(lines, Hits(f), idx)
               && |idx| == |r|
               && forall i :: 0 <= i < |r| ==> f(lines[idx[i]]) == Some(r[i]);
    assert forall i :: 0 <= i < |r| ==> 0 <= idx[i] < |lines|;
    assert forall k :: 0 <= k < |lines| && f(lines[k]).Some? ==> k in idx by {
      forall k | 0 <= k < |lines| && f(lines[k]).Some? ensures k in idx {
        assert Hits(f)(lines[k]);
      }
    }
    PickedCover(lines, f, r, idx);
  }

  lemma PickedCover<T>(lines: seq<string>, f: string -> Option<T>, r: seq<T>, idx: seq<int>)
    requires |idx| == |r|
    requires forall i :: 0 <= i < |r| ==> 0 <= idx[i] < |lines| && f(lines[idx[i]]) == Some(r[i])
    requires forall k :: 0 <= k < |lines| && f(lines[k]).Some? ==> k in idx
    ensures forall j :: 0 <= j < |lines| && f(lines[j]).Some? ==> f(lines[j]).value in r
  {
    forall j | 0 <= j < |lines| && f(lines[j]).Some? ensures f(lines[j]).value in r {
      var i :| 0 <= i < |idx| && idx[i] == j;
      assert r[i] == f(lines[j]).value;
    }
  }

  /** One more line in front: its match, if any, comes first, at position 0. */
  lemma MatchesCons<T>(lines: seq<string>, f: string -> Option<T>, rest: seq<T>)
    requires |lines| > 0
    requires InLineOrder(lines[1..], f, rest)
    ensures InLineOrder(lines, f, if f(lines[0]).Some? then [f(lines[0]).value] + rest else rest)
  {
    var idx :| && Positions(lines[1..], Hits(f), idx)
               && |idx| == |rest|
               && forall i :: 0 <= i < |rest| ==> f(lines[1..][idx[i]]) == Some(rest[i]);
    MatchesConsAt(lines, f, rest, idx);
  }

  /** The same, with the tail's positions given. */
  lemma MatchesConsAt<T>(lines: seq<string>, f: string -> Option<T>, rest: seq<T>, idx: seq<int>)
    requires |lines| > 0
    requires Positions(lines[1..], Hits(f), idx) && |idx| == |rest|
    requires forall i :: 0 <= i < |rest| ==> f(lines[1..][idx[i]]) == Some(rest[i])
    ensures var r := if f(lines[0]).Some? then [f(lines[0]).value] + rest else rest;
      var w := ShiftPositions(idx, f(lines[0]).Some?);
      && Positions(lines, Hits(f), w)
      && |w| == |r|
      && forall i :: 0 <= i < |r| ==> f(lines[w[i]]) == Some(r[i])
  {
    var r := if f(lines[0]).Some? then [f(lines[0]).value] + rest else rest;
    var w := ShiftPositions(idx, f(lines[0]).Some?);
    assert Positions(lines, Hits(f), w) by {
      assert Hits(f)(lines[0]) == f(lines[0]).Some?;
      PositionsCons(lines, Hits(f), idx);
    }
    assert |w| == |r| && forall i :: 0 <= i < |r| ==> f(lines[w[i]]) == Some(r[i]) by {
      ShiftedMatches(lines, f, rest, idx);
      if f(lines[0]).Some? {
        ConsMatches(lines, f, rest, Shift(idx));
      }
    }
  }

  lemma ShiftedMatches<T>(lines: seq<string>, f: string -> Option<T>, rest: seq<T>, idx: seq<int>)
    requires |lines| > 0 && |idx| == |rest|
    requires forall i :: 0 <= i < |rest| ==> 0 <= idx[i] < |lines| - 1 && f(lines[1..][idx[i]]) == Some(rest[i])
    ensures var t := Shift(idx); forall i :: 0 <= i < |rest| ==> f(lines[t[i]]) == Some(rest[i])
  {
    var t := Shift(idx);
    forall i | 0 <= i < |rest| ensures f(lines[t[i]]) == Some(rest[i]) {
      assert lines[1..][idx[i]] == lines[t[i]];
    }
  }

  lemma ConsMatches<T>(lines: seq<string>, f: string -> Option<T>, rest: seq<T>, t: seq<int>)
    requires |lines| > 0 && f(lines[0]).Some? && |t| == |rest|
    requires forall i :: 0 <= i < |rest| ==> 0 <= t[i] < |lines| && f(lines[t[i]]) == Some(rest[i])
    ensures var r := [f(lines[0]).value] + rest; var w := [0] + t;
      forall i :: 0 <= i < |r| ==> f(lines[w[i]]) == Some(r[i])
  {
    var r := [f(lines[0]).value] + rest;
    var w := [0] + t;
    forall i | 0 < i < |r| ensures f(lines[w[i]]) == Some(r[i]) {
      assert w[i] == t[i - 1] && r[i] == rest[i - 1];
    }
  }

  /** `getCurrentState`: empty when `which mas` fails (no listing is attempted) or when
      `mas list` fails; otherwise the id→name map, a later line overwriting an earlier one. */
  function GetCurrentState(env: Env, log: seq<string>): (out: (OMap<int, string>, seq<string>))
    ensures !env(|log|, WhichMas).ok ==> out == ([], log + [WhichMas])
    ensures env(|log|, WhichMas).ok ==> out.1 == log + [WhichMas, MasList]
    ensures env(|log|, WhichMas).ok && !env(|log| + 1, MasList).ok ==> out.0 == []
    ensures env(|log|, WhichMas).ok && env(|log| + 1, MasList).ok ==>
      out.0 == SetAll([], Matches(Lines(env(|log| + 1, MasList).stdout), MatchList))
  {
    if !env(|log|, WhichMas).ok then ([], log + [WhichMas])
    else
      var listing := env(|log| + 1, MasList);
      var log2 := log + [WhichMas, MasList];
      if !listing.ok then ([], log2)
      else (SetAll([], Matches(Lines(listing.stdout), MatchList)), log2)
  }

  /** The lines the matches come from, in increasing order, one for each matching line. */
  lemma MatchLines<T>(lines: seq<string>, f: string -> Option<T>) returns (idx: seq<int>)
    ensures var r := Matches(lines, f);
      && |idx| == |r|
      && (forall i :: 0 <= i < |r| ==> 0 <= idx[i] < |lines| && f(lines[idx[i]]) == Some(r[i]))
      && (forall i, j :: 0 <= i < j < |r| ==> idx[i] < idx[j])
      && (forall k :: 0 <= k < |lines| && f(lines[k]).Some? ==> k in idx)
  {
    var r := Matches(lines, f);
    idx :| && Positions(lines, Hits(f), idx)
           && |idx| == |r|
           && forall i :: 0 <= i < |r| ==> f(lines[idx[i]]) == Some(r[i]);
    forall k | 0 <= k < |lines| && f(lines[k]).Some? ensures k in idx {
      assert Hits(f)(lines[k]);
    }
  }

  /** After a successful listing, the id printed on the last line that names it maps to the
      name on that line: a line laid out as `mas list` prints it decides, and no later line
      for the same id overrides it. */
  lemma ListedNameWins(env: Env, log: seq<string>, k: nat, digits: string, gap: string, name: string, tail: string)
    requires env(|log|, WhichMas).ok && env(|log| + 1, MasList).ok
    requires |digits| > 0 && AllDigits(digits) && |gap| > 0 && AllWhitespace(gap) && PlainName(name)
    requires var lines := Lines(env(|log| + 1, MasList).stdout);
      && k < |lines|
      && lines[k] == digits + gap + name + " (" + tail
      && forall j :: k < j < |lines| && MatchList(lines[j]).Some? ==> MatchList(lines[j]).value.0 != DigitsValue(digits)
    ensures Get(GetCurrentState(env, log).0, DigitsValue(digits)) == Some(name)
  {
    var lines := Lines(env(|log| + 1, MasList).stdout);
    assert MatchList(lines[k]) == Some((DigitsValue(digits), name)) by {
      ListLineRoundTrip(digits, gap, name, tail);
    }
    LastLineWins(lines, MatchList, k);
  }

  /** Setting the matches in turn: the last matching line for a key decides its value. */
  lemma LastLineWins<V>(lines: seq<string>, f: string -> Option<(int, V)>, k: nat)
    requires k < |lines| && f(lines[k]).Some?
    requires forall j :: k < j < |lines| && f(lines[j]).Some? ==> f(lines[j]).value.0 != f(lines[k]).value.0
    ensures Get(SetAll([], Matches(lines, f)), f(lines[k]).value.0) == Some(f(lines[k]).value.1)
  {
    var r := Matches(lines, f);
    var i := LastEntryAt(lines, f, k);
    SetAllLastWins([], r, i);
  }

  /** The matching line `k` is entry `i` of the matches, and every later entry comes from a
      later line. */
  lemma LastEntryAt<V>(lines: seq<string>, f: string -> Option<(int, V)>, k: nat) returns (i: nat)
    requires k < |lines| && f(lines[k]).Some?
    requires forall j :: k < j < |lines| && f(lines[j]).Some? ==> f(lines[j]).value.0 != f(lines[k]).value.0
    ensures var r := Matches(lines, f); i < |r| && r[i] == f(lines[k]).value
    ensures var r := Matches(lines, f); forall j :: i < j < |r| ==> r[j].0 != r[i].0
  {
    var r := Matches(lines, f);
    var idx := MatchLines(lines, f);
    i :| 0 <= i < |idx| && idx[i] == k;
    forall j | i < j < |r| ensures r[j].0 != r[i].0 {
      assert idx[i] < idx[j] < |lines| && f(lines[idx[j]]) == Some(r[j]);
    }
  }

  /** After a successful listing, an id is installed exactly when some line of the listing
      matches the list pattern with that id. */
  lemma InstalledIffListed(env: Env, log: seq<string>, id: int)
    requires env(|log|, WhichMas).ok && env(|log| + 1, MasList).ok
    ensures var lines := Lines(env(|log| + 1, MasList).stdout);
      Has(GetCurrentState(env, log).0, id) <==>
        exists j :: 0 <= j < |lines| && MatchList(lines[j]).Some? && MatchList(lines[j]).value.0 == id
  {
    KeyIffLine(Lines(env(|log| + 1, MasList).stdout), MatchList, id);
  }

  /** Setting the matches in turn: a key is present exactly when some line matched with it. */
  lemma KeyIffLine<V>(lines: seq<string>, f: string -> Option<(int, V)>, id: int)
    ensures Has(SetAll([], Matches(lines, f)), id) <==>
      exists j :: 0 <= j < |lines| && f(lines[j]).Some? && f(lines[j]).value.0 == id
  {
    if Has(SetAll([], Matches(lines, f)), id) {
      var j := KeyFromLine(lines, f, id);
    }
    if exists j :: 0 <= j < |lines| && f(lines[j]).Some? && f(lines[j]).value.0 == id {
      var j :| 0 <= j < |lines| && f(lines[j]).Some? && f(lines[j]).value.0 == id;
      LineGivesKey(lines, f, j);
    }
  }

  lemma KeyFromLine<V>(lines: seq<string>, f: string -> Option<(int, V)>, id: int) returns (j: nat)
    requires Has(SetAll([], Matches(lines, f)), id)
    ensures j < |lines| && f(lines[j]).Some? && f(lines[j]).value.0 == id
  {
    var r := Matches(lines, f);
    var idx := MatchLines(lines, f);
    SetAllOnly([], r, id);
    var i :| 0 <= i < |r| && r[i].0 == id;
    j := idx[i];
  }

  lemma LineGivesKey<V>(lines: seq<string>, f: string -> Option<(int, V)>, j: nat)
    requires j < |lines| && f(lines[j]).Some?
    ensures Has(SetAll([], Matches(lines, f)), f(lines[j]).value.0)
  {
    var i := LineEntry(lines, f, j);
    SetAllHas([], Matches(lines, f), i);
  }

  /** A matching line's match is among the matches. */
  lemma LineEntry<T>(lines: seq<string>, f: string -> Option<T>, j: nat) returns (i: nat)
    requires j < |lines| && f(lines[j]).Some?
    ensures var r := Matches(lines, f); i < |r| && r[i] == f(lines[j]).value
  {
    var r := Matches(lines, f);
    var idx := MatchLines(lines, f);
    assert j in idx;
    i :| 0 <= i < |idx| && idx[i] == j;
    assert f(lines[idx[i]]) == Some(r[i]);
  }

  // ---------------------------------------------------------------------------
  // Searching
  // ---------------------------------------------------------------------------

  datatype SearchOutcome = Found(hits: seq<SearchHit>) | SearchFailed(message: string)

  function SearchCommand(query: string): string {
    "mas search \"" + query + "\""
  }

  const SearchPrefix := "Failed to search App Store: "

  /** `search`: every failure, including a missing `mas`, is rethrown with one prefix;
      otherwise the hits of the matching lines, in order. */
  function Search(env: Env, log: seq<string>, query: string): (out: (SearchOutcome, seq<string>))
    ensures !env(|log|, WhichMas).ok ==> out == (SearchFailed(SearchPrefix + "mas CLI is not installed. Install with: brew install mas"), log + [WhichMas])
    ensures env(|log|, WhichMas).ok ==>
      && out.1 == log + [WhichMas, SearchCommand(query)]
      && (out.0.Found? <==> env(|log| + 1, SearchCommand(query)).ok)
    ensures out.0.SearchFailed? ==> StartsWith(out.0.message, SearchPrefix)
  {
    if !env(|log|, WhichMas).ok then (SearchFailed(SearchPrefix + "mas CLI is not installed. Install with: brew install mas"), log + [WhichMas])
    else
      var resp := env(|log| + 1, SearchCommand(query));
      var log2 := log + [WhichMas, SearchCommand(query)];
      if !resp.ok then (SearchFailed(SearchPrefix + FailureText(SearchCommand(query), resp)), log2)
      else (Found(Matches(Lines(resp.stdout), MatchSearch)), log2)
  }

  // ---------------------------------------------------------------------------
  // Installing
  // ---------------------------------------------------------------------------

  function InstallCommand(app: AppStoreApp): string {
    "mas install " + IntToString(app.id)
  }

  /** `install`: fails without installing when `mas` is missing; otherwise the result follows
      the install command, with its error output on failure. */
  function Install(env: Env, log: seq<string>, app: AppStoreApp): (out: (ApplyResult, seq<string>))
    ensures !env(|log|, WhichMas).ok ==>
      out == (ApplyResult(false, "mas CLI is not installed", Some("Please install mas with: brew install mas")), log + [WhichMas])
    ensures env(|log|, WhichMas).ok ==>
      var resp := env(|log| + 1, InstallCommand(app));
      && out.1 == log + [WhichMas, InstallCommand(app)]
      && out.0 == if resp.ok then ApplyResult(true, "Installed " + app.name, None)
                  else ApplyResult(false, "Failed to install " + app.name, Some(resp.stderr))
  {
    if !env(|log|, WhichMas).ok then (ApplyResult(false, "mas CLI is not installed", Some("Please install mas with: brew install mas")), log + [WhichMas])
    else
      var resp := env(|log| + 1, InstallCommand(app));
      var log2 := log + [WhichMas, InstallCommand(app)];
      if resp.ok then (ApplyResult(true, "Installed " + app.name, None), log2)
      else (ApplyResult(false, "Failed to install " + app.name, Some(resp.stderr)), log2)
  }

  /** The results `install` can give for `app`. */
  predicate InstallOutcome(r: ApplyResult, app: AppStoreApp) {
    || r == ApplyResult(false, "mas CLI is not installed", Some("Please install mas with: brew install mas"))
    || r == ApplyResult(true, "Installed " + app.name, None)
    || (!r.success && r.message == "Failed to install " + app.name)
  }

  /** `uninstall`: always a failure, and no command. */
  function Uninstall(app: AppStoreApp): (r: ApplyResult)
    ensures !r.success && r.error.Some?
    ensures r.message == "Cannot uninstall " + app.name
  {
    ApplyResult(false, "Cannot uninstall " + app.name,
      Some("mas CLI does not support uninstalling apps. Please uninstall manually."))
  }

  // ---------------------------------------------------------------------------
  // The standalone apply
  // ---------------------------------------------------------------------------

  /** The apps whose id is not among the installed ones. */
  function Absent(current: OMap<int, string>): AppStoreApp -> bool {
    (a: AppStoreApp) => !Has(current, a.id)
  }

  /** `install` on each app in turn, each seeing the commands of those before it. */
  function InstallAll(env: Env, log: seq<string>, todo: seq<AppStoreApp>): (out: (seq<ApplyResult>, seq<string>))
    ensures |out.0| == |todo|
    ensures forall i :: 0 <= i < |todo| ==> InstallOutcome(out.0[i], todo[i])
    decreases |todo|
  {
    if |todo| == 0 then ([], log)
    else
      var first := Install(env, log, todo[0]);
      var rest := InstallAll(env, first.1, todo[1..]);
      ([first.0] + rest.0, rest.1)
  }

  /** The install loop: it checks every configured app and installs, in order, exactly those
      absent from `current`. */
  function InstallMissing(env: Env, log: seq<string>, apps: seq<AppStoreApp>, current: OMap<int, string>)
    : (out: (seq<ApplyResult>, seq<string>))
    ensures out == InstallAll(env, log, Filter(apps, Absent(current)))
    decreases |apps|
  {
    if |apps| == 0 then ([], log)
    else
      var tail := Filter(apps[1..], Absent(current));
      if Has(current, apps[0].id) then
        assert Filter(apps, Absent(current)) == tail;
        InstallMissing(env, log, apps[1..], current)
      else
        assert Filter(apps, Absent(current)) == [apps[0]] + tail;
        assert ([apps[0]] + tail)[1..] == tail;
        var first := Install(env, log, apps[0]);
        var rest := InstallMissing(env, first.1, apps[1..], current);
        ([first.0] + rest.0, rest.1)
  }

  /** `apply`: one install attempt per configured app whose id is not installed, and never an
      uninstall; in strict mode the installed apps missing from the configuration are only
      reported, in map order. */
  function Apply(env: Env, log: seq<string>, apps: seq<AppStoreApp>, strict: bool)
    : (out: (seq<ApplyResult>, seq<(int, string)>, seq<string>))
    ensures var current := GetCurrentState(env, log).0;
      var todo := Filter(apps, Absent(current));
      && |out.0| == |todo|
      && (forall i :: 0 <= i < |todo| ==> InstallOutcome(out.0[i], todo[i]))
      && out.1 == (if strict then Filter(current, (p: (int, string)) => p.0 !in MapSeq(apps, (a: AppStoreApp) => a.id)) else [])
  {
    var state := GetCurrentState(env, log);
    var installed := InstallMissing(env, state.1, apps, state.0);
    var ids := MapSeq(apps, (a: AppStoreApp) => a.id);
    (installed.0, if strict then Filter(state.0, (p: (int, string)) => p.0 !in ids) else [], installed.1)
  }
}

