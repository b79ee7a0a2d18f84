/** Shared vocabulary of the model: optional values, day numbers and the
    handful of Python string operations the portal relies on
    (`str.split`, `str.strip`, `str.lower`, `str.join`, `str(n)`, slicing).

    Dates are integer day numbers and timestamps are integer seconds.
    Day 0 is a Monday, so `Weekday` agrees with Python's `date.weekday()`. */
module Common {

  datatype Option<T> = None | Some(value: T) {
    function GetOr(default: T): T {
      match this
      case Some(v) => v
      case None => default
    }
  }

  function Max(a: int, b: int): int { if a >= b then a else b }

  /** Python's `date.weekday()`: 0 is Monday, 6 is Sunday. */
  function Weekday(day: int): (w: int)
    ensures 0 <= w < 7
  {
    day % 7
  }

  /** Seven days later is the same weekday. */
  lemma WeekdayNextWeek(day: int)
    ensures Weekday(day + 7) == Weekday(day)
  {
  }

  // ---------------------------------------------------------------------
  // Arithmetic facts the percentage computations need

  lemma MulMono(a: int, b: int, c: nat)
    ensures a <= b ==> a * c <= b * c
  {
  }

  /** The quotient times the divisor does not exceed the dividend. */
  lemma DivBelow(a: nat, d: nat)
    requires d > 0
    ensures (a / d) * d <= a < (a / d + 1) * d
  {
  }

  lemma DivMonotone(a: nat, b: nat, d: nat)
    requires a <= b && d > 0
    ensures a / d <= b / d
  {
    DivBelow(a, d);
    DivBelow(b, d);
    MulMono(b / d + 1, a / d, d);
  }

  /** A subset is no larger than the set that holds it. */
  lemma {:induction false} SubsetCard<T>(a: set<T>, b: set<T>)
    requires a <= b
    ensures |a| <= |b|
    decreases b
  {
    if a != {} {
      var x :| x in a;
      SubsetCard(a - {x}, b - {x});
    }
  }

  /** A total between `c * lo` and `c * hi` over a positive count `c`
      gives a mean between `lo` and `hi`. */
  lemma MeanBetween(t: real, c: real, lo: real, hi: real)
    requires c > 0.0 && c * lo <= t <= c * hi
    ensures lo <= t / c <= hi
  {
    var m := t / c;
    assert m * c == t;
    assert (m - lo) * c == t - c * lo;
    assert (m - hi) * c == t - c * hi;
    SignOfProduct(m - lo, c);
    SignOfProduct(m - hi, c);
  }

  /** Multiplying by a positive real keeps the sign. */
  lemma SignOfProduct(x: real, y: real)
    requires y > 0.0
    ensures (x >= 0.0 <==> x * y >= 0.0) && (x <= 0.0 <==> x * y <= 0.0) && (x == 0.0 <==> x * y == 0.0)
  {
    if x > 0.0 {
      assert x * y > 0.0;
    } else if x < 0.0 {
      assert (-x) * y > 0.0;
    }
  }

  /** A quotient `p / q` of whole numbers read as a real: it lies in [0, 1]
      when `0 <= p <= q`, and it reaches 1 exactly when `p == q`. */
  lemma Ratio(p: int, q: nat)
    requires q > 0
    ensures var r := p as real / q as real;
      (0 <= p ==> 0.0 <= r) && (p <= q ==> r <= 1.0) &&
      (r >= 1.0 <==> p >= q) && (r == 1.0 <==> p == q)
  {
    var P, Q := p as real, q as real;
    var r := P / Q;
    assert r * Q == P;
    assert (r - 1.0) * Q == P - Q;
    SignOfProduct(r, Q);
    SignOfProduct(r - 1.0, Q);
  }

  // ---------------------------------------------------------------------
  // Characters

  /** The ASCII whitespace that `str.split()` and `str.strip()` remove. */
  predicate IsSpace(c: char) {
    c == ' ' || c == '\t' || c == '\n' || c == '\r'
  }

  /** `str.lower()` on one character, for the Latin and the Russian
      alphabets. */
  function LowerChar(c: char): char {
    if 'A' <= c <= 'Z' || 'А' <= c <= 'Я' then (c as int + 32) as char
    else if c == 'Ё' then 'ё'
    else c
  }

  /** `str.lower()` on Latin and Russian letters. */
  function Lower(s: string): (r: string)
    ensures |r| == |s|
    ensures forall i :: 0 <= i < |s| ==> r[i] == LowerChar(s[i])
  {
    if s == [] then [] else [LowerChar(s[0])] + Lower(s[1..])
  }

  lemma {:induction false} LowerIdempotent(s: string)
    ensures Lower(Lower(s)) == Lower(s)
  {
    var l := Lower(s);
    assert forall i :: 0 <= i < |s| ==> Lower(l)[i] == LowerChar(LowerChar(s[i]));
  }

  lemma {:induction false} LowerAppend(a: string, b: string)
    ensures Lower(a + b) == Lower(a) + Lower(b)
  {
    assert forall i :: 0 <= i < |a + b| ==> Lower(a + b)[i] == (Lower(a) + Lower(b))[i];
  }

  predicate EndsWith(s: string, suffix: string) {
    |suffix| <= |s| && s[|s| - |suffix|..] == suffix
  }

  predicate StartsWith(s: string, prefix: string) {
    |prefix| <= |s| && s[..|prefix|] == prefix
  }

  // ---------------------------------------------------------------------
  // Python slicing: `s[:n]` and `s[-n:]` never fail on short strings

  function Head(s: string, n: nat): (r: string)
    ensures |r| == if |s| < n then |s| else n
    ensures StartsWith(s, r)
  {
    if |s| < n then s else s[..n]
  }

  function Tail(s: string, n: nat): (r: string)
    ensures |r| == if |s| < n then |s| else n
    ensures EndsWith(s, r)
  {
    if |s| < n then s else s[|s| - n..]
  }

  /** The admin previews: first `limit` characters and "..." when the text
      is longer than `limit`, the text itself otherwise. */
  function Truncate(s: string, limit: nat): (r: string)
    ensures |s| <= limit ==> r == s
    ensures |s| > limit ==> |r| == limit + 3 && StartsWith(s, r[..limit]) && EndsWith(r, "...")
  {
    if |s| > limit then s[..limit] + "..." else s
  }

  // ---------------------------------------------------------------------
  // `str.split(sep)` and `sep.join(parts)`

  /** `s.split(sep)` for a one-character separator: the pieces between the
      separators, so "" gives [""] and "a,,b" gives ["a", "", "b"]. */
  function Split(s: string, sep: char): (parts: seq<string>)
    ensures |parts| >= 1
    ensures forall p :: p in parts ==> sep !in p
    decreases |s|
  {
    if s == [] then [""]
    else if s[0] == sep then [""] + Split(s[1..], sep)
    else
      var rest := Split(s[1..], sep);
      [[s[0]] + rest[0]] + rest[1..]
  }

  function Join(parts: seq<string>, sep: string): string {
    if |parts| == 0 then ""
    else if |parts| == 1 then parts[0]
    else parts[0] + sep + Join(parts[1..], sep)
  }

  /** Joining a piece in front of at least one other puts a separator
      between them. */
  lemma JoinCons(head: string, parts: seq<string>, sep: string)
    requires |parts| >= 1
    ensures Join([head] + parts, sep) == head + sep + Join(parts, sep)
  {
    assert ([head] + parts)[0] == head && ([head] + parts)[1..] == parts;
  }

  /** Growing the first piece by one character grows the joined text by
      that character in front. */
  lemma JoinExtendHead(c: char, parts: seq<string>, sep: string)
    requires |parts| >= 1
    ensures Join([[c] + parts[0]] + parts[1..], sep) == [c] + Join(parts, sep)
  {
    if |parts| > 1 {
      JoinCons([c] + parts[0], parts[1..], sep);
      JoinCons(parts[0], parts[1..], sep);
      assert [parts[0]] + parts[1..] == parts;
    }
  }

  /** Splitting and re-joining with the same separator gives the text back. */
  lemma {:induction false} JoinSplit(s: string, sep: char)
    ensures Join(Split(s, sep), [sep]) == s
    decreases |s|
  {
    if s != [] {
      JoinSplit(s[1..], sep);
      var rest := Split(s[1..], sep);
      assert s == [s[0]] + s[1..];
      if s[0] == sep {
        SplitAfterSeparator(s[1..], sep);
        JoinCons("", rest, [sep]);
      } else {
        SplitCons(s[0], s[1..], sep);
        JoinExtendHead(s[0], rest, [sep]);
      }
    }
  }

  /** A character other than the separator joins the first piece. */
  lemma SplitCons(c: char, t: string, sep: char)
    requires c != sep
    ensures Split([c] + t, sep) == [[c] + Split(t, sep)[0]] + Split(t, sep)[1..]
  {
    assert ([c] + t)[0] == c && ([c] + t)[1..] == t;
  }

  /** A piece free of the separator stays at the head of the first part. */
  lemma {:induction false} SplitPrefix(w: string, rest: string, sep: char)
    requires sep !in w
    ensures Split(w + rest, sep) == [w + Split(rest, sep)[0]] + Split(rest, sep)[1..]
    decreases |w|
  {
    var S := Split(rest, sep);
    if w == [] {
      assert w + rest == rest && w + S[0] == S[0];
      assert S == [S[0]] + S[1..];
    } else {
      var t := w[1..] + rest;
      assert w + rest == [w[0]] + t;
      SplitPrefix(w[1..], rest, sep);
      var R := Split(t, sep);
      assert R[0] == w[1..] + S[0] && R[1..] == S[1..];
      SplitCons(w[0], t, sep);
      assert [w[0]] + (w[1..] + S[0]) == w + S[0];
    }
  }

  /** A leading separator splits off an empty first piece. */
  lemma SplitAfterSeparator(tail: string, sep: char)
    ensures Split([sep] + tail, sep) == [""] + Split(tail, sep)
  {
    assert ([sep] + tail)[0] == sep && ([sep] + tail)[1..] == tail;
  }

  /** One more separator-free piece in front of pieces that split back. */
  lemma SplitJoinStep(head: string, tailParts: seq<string>, sep: char)
    requires sep !in head && |tailParts| >= 1
    requires Split(Join(tailParts, [sep]), sep) == tailParts
    ensures Split(Join([head] + tailParts, [sep]), sep) == [head] + tailParts
  {
    var parts := [head] + tailParts;
    assert parts[0] == head && parts[1..] == tailParts;
    var tail := Join(tailParts, [sep]);
    var rest := [sep] + tail;
    SplitAfterSeparator(tail, sep);
    SplitPrefix(head, rest, sep);
    assert head + "" == head;
    assert Join(parts, [sep]) == head + rest;
  }

  /** Joining separator-free pieces and splitting again gives the pieces. */
  lemma {:induction false} SplitJoin(parts: seq<string>, sep: char)
    requires |parts| >= 1 && forall p :: p in parts ==> sep !in p
    ensures Split(Join(parts, [sep]), sep) == parts
  {
    if |parts| == 1 {
      SplitPrefix(parts[0], "", sep);
      assert parts[0] + "" == parts[0];
    } else {
      assert parts[0] in parts;
      assert forall p :: p in parts[1..] ==> p in parts;
      SplitJoin(parts[1..], sep);
      SplitJoinStep(parts[0], parts[1..], sep);
      assert parts == [parts[0]] + parts[1..];
    }
  }

  /** `s.split(sep)` has one more piece than `s` has separators. */
  lemma {:induction false} SplitCount(s: string, sep: char)
    ensures |Split(s, sep)| == CountChar(s, sep) + 1
    decreases |s|
  {
    if s != [] {
      SplitCount(s[1..], sep);
    }
  }

  function CountChar(s: string, c: char): nat {
    if s == [] then 0 else (if s[0] == c then 1 else 0) + CountChar(s[1..], c)
  }

  // ---------------------------------------------------------------------
  // `str.strip()`

  function StripLeft(s: string): (r: string)
    ensures |r| <= |s| && EndsWith(s, r)
    ensures r != [] ==> !IsSpace(r[0])
    ensures forall i :: 0 <= i < |s| - |r| ==> IsSpace(s[i])
  {
    if s != [] && IsSpace(s[0]) then StripLeft(s[1..]) else s
  }

  function StripRight(s: string): (r: string)
    ensures |r| <= |s| && StartsWith(s, r)
    ensures r != [] ==> !IsSpace(r[|r| - 1])
    ensures forall i :: |r| <= i < |s| ==> IsSpace(s[i])
  {
    if s != [] && IsSpace(s[|s| - 1]) then StripRight(s[..|s| - 1]) else s
  }

  /** `s.strip()`: the text between the leading and the trailing whitespace. */
  function Strip(s: string): string {
    StripRight(StripLeft(s))
  }

  /** A slice of a suffix is a slice of the whole. */
  lemma SliceOfSuffix(s: string, k: nat, n: nat)
    requires k + n <= |s|
    ensures s[k..][..n] == s[k..k + n]
  {
  }

  /** The characters after the kept text are whitespace. */
  lemma StripTrailing(s: string)
    ensures var k, r := |s| - |StripLeft(s)|, Strip(s);
      forall i :: k + |r| <= i < |s| ==> IsSpace(s[i])
  {
    var l := StripLeft(s);
    var k := |s| - |l|;
    var r := StripRight(l);
    assert s[k..] == l;
    forall i | k + |r| <= i < |s|
      ensures IsSpace(s[i])
    {
      assert s[i] == l[i - k];
    }
  }

  /** The kept text is the slice of the original that starts after the
      leading whitespace. */
  lemma StripKept(s: string)
    ensures var k, r := |s| - |StripLeft(s)|, Strip(s);
      k + |r| <= |s| && s[k..k + |r|] == r
  {
    var l := StripLeft(s);
    var k := |s| - |l|;
    var r := StripRight(l);
    assert s[k..] == l;
    assert l[..|r|] == r;
    SliceOfSuffix(s, k, |r|);
  }

  /** The kept text neither starts nor ends with whitespace. */
  lemma StripEnds(s: string)
    ensures Strip(s) != [] ==> !IsSpace(Strip(s)[0]) && !IsSpace(Strip(s)[|Strip(s)| - 1])
  {
    var l := StripLeft(s);
    var r := StripRight(l);
    if r != [] {
      assert r[0] == l[..|r|][0] == l[0];
    }
  }

  /** What `strip` removes is whitespace, what it keeps is a piece of the
      text that neither starts nor ends with whitespace. */
  lemma StripShape(s: string)
    ensures var k, r := |s| - |StripLeft(s)|, Strip(s);
      k + |r| <= |s| && s[k..k + |r|] == r &&
      (forall i :: 0 <= i < k ==> IsSpace(s[i])) &&
      (forall i :: k + |r| <= i < |s| ==> IsSpace(s[i]))
    ensures Strip(s) != [] ==> !IsSpace(Strip(s)[0]) && !IsSpace(Strip(s)[|Strip(s)| - 1])
  {
    StripKept(s);
    StripTrailing(s);
    StripEnds(s);
  }

  /** Stripping twice is stripping once. */
  lemma StripIdempotent(s: string)
    ensures Strip(Strip(s)) == Strip(s)
  {
    var r := Strip(s);
    StripShape(s);
    if r != [] {
      assert StripLeft(r) == r;
      assert StripRight(r) == r;
    }
  }

  // ---------------------------------------------------------------------
  // `str.split()` with no separator: the whitespace-separated words

  function DropSpaces(s: string): (r: string)
    ensures |r| <= |s| && (r != [] ==> !IsSpace(r[0]))
  {
    if s != [] && IsSpace(s[0]) then DropSpaces(s[1..]) else s
  }

  function TakeWord(s: string): (w: string)
    ensures |w| <= |s| && w == s[..|w|]
    ensures forall c :: c in w ==> !IsSpace(c)
    ensures |w| < |s| ==> IsSpace(s[|w|])
  {
    if s == [] || IsSpace(s[0]) then [] else [s[0]] + TakeWord(s[1..])
  }

  predicate IsWord(w: string) {
    w != [] && forall c :: c in w ==> !IsSpace(c)
  }

  /** `s.split()`: every maximal run of non-whitespace characters. */
  function Words(s: string): (ws: seq<string>)
    ensures forall w :: w in ws ==> IsWord(w)
    decreases |s|
  {
    var t := DropSpaces(s);
    if t == [] then []
    else
      var w := TakeWord(t);
      assert w != [] by { assert t[0] == TakeWord(t)[0]; }
      [w] + Words(t[|w|..])
  }

  lemma {:induction false} TakeWordOfJoin(w: string, rest: string)
    requires IsWord(w)
    requires rest == [] || IsSpace(rest[0])
    ensures TakeWord(w + rest) == w
    decreases |w|
  {
    if |w| > 1 {
      assert (w + rest)[1..] == w[1..] + rest;
      TakeWordOfJoin(w[1..], rest);
    } else {
      assert (w + rest)[1..] == rest;
    }
  }

  /** Words joined by single spaces split back into the same words, so the
      lecture word count of such a text is the number of its words. */
  lemma {:induction false} WordsOfJoin(ws: seq<string>)
    requires forall w :: w in ws ==> IsWord(w)
    ensures Words(Join(ws, " ")) == ws
    decreases |ws|
  {
    if |ws| == 0 {
    } else if |ws| == 1 {
      var w := ws[0];
      assert w + [] == w;
      TakeWordOfJoin(w, []);
      assert DropSpaces(w) == w;
      assert w[|w|..] == [];
    } else {
      var w := ws[0];
      var rest := " " + Join(ws[1..], " ");
      assert Join(ws, " ") == w + rest;
      assert DropSpaces(w + rest) == w + rest;
      TakeWordOfJoin(w, rest);
      assert (w + rest)[|w|..] == rest;
      assert DropSpaces(rest) == DropSpaces(Join(ws[1..], " "));
      WordsOfJoin(ws[1..]);
      assert Words(rest) == Words(Join(ws[1..], " "));
      assert ws == [w] + ws[1..];
    }
  }

  // ---------------------------------------------------------------------
  // `str(n)` and `f"{n:02d}"`

  function DigitChar(d: nat): char
    requires d < 10
  {
    ('0' as int + d) as char
  }

  predicate IsDigit(c: char) { '0' as int <= c as int <= '9' as int }

  function NatToString(n: nat): (s: string)
    ensures s != [] && forall c :: c in s ==> IsDigit(c)
  {
    if n < 10 then [DigitChar(n)] else NatToString(n / 10) + [DigitChar(n % 10)]
  }

  /** The inverse of `NatToString`: reads decimal digits. */
  function ParseNat(s: string): nat
    requires forall c :: c in s ==> IsDigit(c)
  {
    if s == [] then 0
    else
      var last := s[|s| - 1];
      assert last in s && IsDigit(last);
      var digit: nat := last as int - '0' as int;
      assert forall c :: c in s[..|s| - 1] ==> c in s;
      ParseNat(s[..|s| - 1]) * 10 + digit
  }

  lemma {:induction false} ParseNatToString(n: nat)
    ensures ParseNat(NatToString(n)) == n
  {
    if n >= 10 {
      ParseNatToString(n / 10);
      var s := NatToString(n);
      assert s[..|s| - 1] == NatToString(n / 10);
    }
  }

  /** `f"{n:02d}"`: at least two digits, zero padded. */
  function Pad2(n: nat): (s: string)
    ensures |s| >= 2 && forall c :: c in s ==> IsDigit(c)
    ensures ParseNat(s) == n
  {
    ParseNatToString(n);
    if n < 10 then
      var d := NatToString(n);
      assert ("0" + d)[..1] == "0";
      assert ("0" + d) == ("0" + d)[..1] + d;
      ParseNatAppendZero(d);
      "0" + d
    else
      NatToString(n)
  }

  /** A leading zero does not change the value of a one-digit number. */
  lemma ParseNatAppendZero(d: string)
    requires |d| == 1 && IsDigit(d[0])
    ensures ParseNat("0" + d) == ParseNat(d)
  {
    var s := "0" + d;
    assert s[..|s| - 1] == "0";
    assert ParseNat("0") == 0 by { assert ("0")[..0] == []; }
    assert d[..0] == [];
  }

  // ---------------------------------------------------------------------
  // `str(i)` for an integer that may be negative

  function IntToString(i: int): string {
    if i < 0 then "-" + NatToString(-i) else NatToString(i)
  }

  /** An optional minus sign followed by decimal digits. */
  predicate IsIntText(s: string) {
    s != [] && AllDigits(if s[0] == '-' then s[1..] else s) && s != "-"
  }

  predicate AllDigits(s: string) {
    forall c :: c in s ==> IsDigit(c)
  }

  function ParseInt(s: string): int
    requires IsIntText(s)
  {
    var magnitude: int := ParseNat(if s[0] == '-' then s[1..] else s);
    if s[0] == '-' then -magnitude else magnitude
  }

  /** `IntToString` writes a number that reads back as itself, with no
      whitespace in it. */
  lemma IntToStringReadsBack(i: int)
    ensures IsIntText(IntToString(i)) && ParseInt(IntToString(i)) == i
    ensures IsWord(IntToString(i))
  {
    var s := IntToString(i);
    if i < 0 {
      ParseNatToString(-i);
      assert s[0] == '-';
      assert s[1..] == NatToString(-i);
    } else {
      ParseNatToString(i);
      assert s[0] in s;
      assert s[0] != '-';
    }
    forall c | c in s ensures !IsSpace(c) {
      if c != '-' {
        assert c in NatToString(if i < 0 then -i else i);
      }
    }
  }

  // ---------------------------------------------------------------------
  // Counting the rows of a table that satisfy a filter, as `count()` does

  function CountWhere<T>(s: seq<T>, p: T -> bool): nat {
    if s == [] then 0 else CountWhere(s[..|s| - 1], p) + (if p(s[|s| - 1]) then 1 else 0)
  }

  /** Replacing one row changes the count by what the old and the new row
      contribute. */
  lemma {:induction false} CountWhereUpdate<T>(s: seq<T>, i: nat, x: T, p: T -> bool)
    requires i < |s|
    ensures CountWhere(s[i := x], p) + (if p(s[i]) then 1 else 0) == CountWhere(s, p) + (if p(x) then 1 else 0)
  {
    var n := |s| - 1;
    if i == n {
      assert s[i := x][..n] == s[..n];
    } else {
      CountWhereUpdate(s[..n], i, x, p);
      assert s[i := x][..n] == s[..n][i := x];
    }
  }

  lemma {:induction false} CountWhereAppend<T>(s: seq<T>, x: T, p: T -> bool)
    ensures CountWhere(s + [x], p) == CountWhere(s, p) + (if p(x) then 1 else 0)
  {
    assert (s + [x])[..|s|] == s;
  }

  // ---------------------------------------------------------------------
  // Admin selections: the rows picked in an admin list, given as distinct
  // positions in their table

  /** The selected positions name rows of a table of `size` rows, each at
      most once, as a queryset does. */
  predicate Selection(size: nat, selected: seq<nat>) {
    (forall k :: 0 <= k < |selected| ==> selected[k] < size) &&
    (forall a, b :: 0 <= a < b < |selected| ==> selected[a] != selected[b])
  }

  /** The table with `f` applied to the selected rows. */
  function Updated<T>(table: seq<T>, selected: seq<nat>, f: T -> T): (r: seq<T>)
    ensures |r| == |table|
    ensures forall i :: 0 <= i < |table| ==> r[i] == if i in selected then f(table[i]) else table[i]
  {
    seq(|table|, i requires 0 <= i < |table| => if i in selected then f(table[i]) else table[i])
  }

  /** The loop `for row in queryset: ...; row.save()`: each selected row is
      changed by `f` once, whatever the order of the selection. */
  method ForEachSelected<T>(table: seq<T>, selected: seq<nat>, f: T -> T) returns (r: seq<T>)
    requires Selection(|table|, selected)
    ensures r == Updated(table, selected, f)
  {
    r := table;
    var k := 0;
    while k < |selected|
      invariant 0 <= k <= |selected| && |r| == |table|
      invariant forall i :: 0 <= i < |table| ==> r[i] == if i in selected[..k] then f(table[i]) else table[i]
    {
      var i := selected[k];
      assert i !in selected[..k];
      r := r[i := f(r[i])];
      assert forall j :: j in selected[..k + 1] <==> j in selected[..k] || j == i;
      k := k + 1;
    }
    assert selected[..k] == selected;
  }
}
