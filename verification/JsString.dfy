/** The parts of ECMAScript's `String` and `Array.prototype.join` that several source files share. */
module JsString {
  import opened Sequences

  /** `WhiteSpace` and `LineTerminator` of ECMA-262, the characters `trim` and `\s` match. */
  predicate IsSpace(c: char) {
    || '\t' <= c <= '\r'
    || c == ' '
    || c == '\U{00A0}' || c == '\U{1680}'
    || '\U{2000}' <= c <= '\U{200A}'
    || c == '\U{2028}' || c == '\U{2029}' || c == '\U{202F}' || c == '\U{205F}'
    || c == '\U{3000}' || c == '\U{FEFF}'
  }

  /** The same by code points. */
  lemma SpacesAre(c: char)
    ensures IsSpace(c) <==>
            var n := c as int;
            9 <= n <= 13 || n == 32 || n == 160 || n == 5760 || 8192 <= n <= 8202 || n == 8232 || n == 8233
            || n == 8239 || n == 8287 || n == 12288 || n == 65279
  {
  }

  function TrimStart(s: string): string {
    if s != [] && IsSpace(s[0]) then TrimStart(s[1..]) else s
  }

  function TrimEnd(s: string): string {
    if s != [] && IsSpace(s[|s| - 1]) then TrimEnd(s[..|s| - 1]) else s
  }

  /** `s.trim()` */
  function Trim(s: string): string {
    TrimEnd(TrimStart(s))
  }

  lemma TrimKeepsSolidEnds(s: string)
    requires s != [] && !IsSpace(s[0]) && !IsSpace(s[|s| - 1])
    ensures Trim(s) == s
  {
  }

  lemma {:induction false} TrimStartDrops(before: string, s: string)
    requires (forall c :: c in before ==> IsSpace(c)) && (s == [] || !IsSpace(s[0]))
    ensures TrimStart(before + s) == s
  {
    if before == [] {
      assert before + s == s;
    } else {
      assert before[0] in before && (before + s)[1..] == before[1..] + s;
      TrimStartDrops(before[1..], s);
    }
  }

  lemma {:induction false} TrimEndDrops(s: string, after: string)
    requires (forall c :: c in after ==> IsSpace(c)) && (s == [] || !IsSpace(s[|s| - 1]))
    ensures TrimEnd(s + after) == s
  {
    if after == [] {
      assert s + after == s;
    } else {
      var front := after[..|after| - 1];
      assert after[|after| - 1] in after && (s + after)[..|s + after| - 1] == s + front;
      TrimEndDrops(s, front);
    }
  }

  lemma TrimDropsSpaces(before: string, s: string, after: string)
    requires s != [] && !IsSpace(s[0]) && !IsSpace(s[|s| - 1])
    requires (forall c :: c in before ==> IsSpace(c)) && forall c :: c in after ==> IsSpace(c)
    ensures Trim(before + s + after) == s
  {
    assert before + s + after == before + (s + after);
    TrimStartDrops(before, s + after);
    TrimEndDrops(s, after);
  }

  lemma {:induction false} TrimStartIsInside(s: string) returns (before: string)
    ensures s == before + TrimStart(s) && forall c :: c in before ==> IsSpace(c)
  {
    before := [];
    if s != [] && IsSpace(s[0]) {
      var rest := TrimStartIsInside(s[1..]);
      before := [s[0]] + rest;
    }
  }

  lemma {:induction false} TrimEndIsInside(s: string) returns (after: string)
    ensures s == TrimEnd(s) + after && forall c :: c in after ==> IsSpace(c)
  {
    after := [];
    if s != [] && IsSpace(s[|s| - 1]) {
      var rest := TrimEndIsInside(s[..|s| - 1]);
      after := rest + [s[|s| - 1]];
    }
  }

  /** Trimming takes nothing but spaces off the ends. */
  lemma TrimmedIsInside(s: string) returns (before: string, after: string)
    ensures s == before + Trim(s) + after
    ensures (forall c :: c in before ==> IsSpace(c)) && forall c :: c in after ==> IsSpace(c)
  {
    before := TrimStartIsInside(s);
    after := TrimEndIsInside(TrimStart(s));
  }

  /** Trimming leaves nothing exactly of a text of spaces. */
  lemma TrimmedToNothingIff(s: string)
    ensures Trim(s) == [] <==> forall c :: c in s ==> IsSpace(c)
  {
    var before, after := TrimmedIsInside(s);
    if forall c :: c in s ==> IsSpace(c) {
      TrimStartDrops(s, "");
      assert s + "" == s;
    }
  }

  predicate IsDigit(c: char) {
    '0' <= c <= '9'
  }

  /** `String(n)` */
  function DecimalText(n: nat): string {
    if n < 10 then [('0' as int + n) as char] else DecimalText(n / 10) + [('0' as int + n % 10) as char]
  }

  /** `Number(digits)` */
  function DecimalValue(digits: string): nat
    requires forall c :: c in digits ==> IsDigit(c)
  {
    if digits == [] then 0
    else
      assert IsDigit(digits[|digits| - 1]);
      DecimalValue(digits[..|digits| - 1]) * 10 + (digits[|digits| - 1] as int - '0' as int)
  }

  lemma {:induction false} DecimalTextIsRead(n: nat)
    ensures DecimalText(n) != [] && (forall c :: c in DecimalText(n) ==> IsDigit(c))
    ensures DecimalValue(DecimalText(n)) == n
  {
    if n >= 10 {
      DecimalTextIsRead(n / 10);
      assert DecimalText(n)[..|DecimalText(n)| - 1] == DecimalText(n / 10);
    } else {
      assert DecimalText(n)[..0] == [];
    }
  }

  /** And without leading zeros. */
  lemma {:induction false} DecimalTextIsShort(n: nat)
    ensures DecimalText(n) != [] && (DecimalText(n)[0] == '0' <==> n == 0)
    ensures n < 10 ==> |DecimalText(n)| == 1
  {
    if n >= 10 {
      DecimalTextIsShort(n / 10);
    }
  }

  /** True when `sep` stands at position `i` of `s`. */
  predicate OccursAt(s: string, sep: string, i: nat) {
    i + |sep| <= |s| && s[i..i + |sep|] == sep
  }

  /** `s.indexOf(sep, from)`, with |s| + 1 for "not found". */
  function Find(s: string, sep: string, from: nat): (i: nat)
    requires from <= |s| + 1
    ensures from <= i <= |s| + 1
    ensures i <= |s| ==> i + |sep| <= |s|
    decreases |s| + 1 - from
  {
    if from > |s| || OccursAt(s, sep, from) then from else Find(s, sep, from + 1)
  }

  /** `Find` returns the leftmost occurrence. */
  lemma {:induction false} FindIsLeftmost(s: string, sep: string, from: nat)
    requires from <= |s| + 1
    ensures Find(s, sep, from) <= |s| ==> OccursAt(s, sep, Find(s, sep, from))
    ensures forall j :: from <= j < Find(s, sep, from) ==> !OccursAt(s, sep, j)
    decreases |s| + 1 - from
  {
    if from <= |s| && !OccursAt(s, sep, from) {
      FindIsLeftmost(s, sep, from + 1);
    }
  }

  lemma FindIs(s: string, sep: string, i: nat)
    requires i <= |s| && OccursAt(s, sep, i)
    requires forall j :: 0 <= j < i ==> !OccursAt(s, sep, j)
    ensures Find(s, sep, 0) == i
  {
    FindIsLeftmost(s, sep, 0);
  }

  /** `s.split(sep)` for a non-empty separator: never an empty array. */
  function Split(s: string, sep: string): (parts: seq<string>)
    requires sep != []
    ensures parts != []
  {
    var i := Find(s, sep, 0);
    if i > |s| then [s] else [s[..i]] + Split(s[i + |sep|..], sep)
  }

  /** `parts.join(sep)` */
  function Join(parts: seq<string>, sep: string): string {
    if parts == [] then []
    else if |parts| == 1 then parts[0]
    else parts[0] + sep + Join(parts[1..], sep)
  }

  function Concat(parts: seq<string>): string {
    if parts == [] then [] else parts[0] + Concat(parts[1..])
  }

  lemma {:induction false} ConcatSnoc(parts: seq<string>, last: string)
    ensures Concat(parts + [last]) == Concat(parts) + last
  {
    if parts == [] {
      assert parts + [last] == [last];
      assert Concat([last]) == last + Concat([]);
    } else {
      assert (parts + [last])[1..] == parts[1..] + [last];
      ConcatSnoc(parts[1..], last);
    }
  }

  /** The parts of `s` that a separator ends, and the unfinished rest: `split` followed by `pop`. */
  function Finished(s: string, sep: string): seq<string>
    requires sep != []
  {
    var i := Find(s, sep, 0);
    if i > |s| then [] else [s[..i]] + Finished(s[i + |sep|..], sep)
  }

  function Tail(s: string, sep: string): string
    requires sep != []
  {
    var i := Find(s, sep, 0);
    if i > |s| then s else Tail(s[i + |sep|..], sep)
  }

  lemma {:induction false} SplitThenPop(s: string, sep: string)
    requires sep != []
    ensures Split(s, sep) == Finished(s, sep) + [Tail(s, sep)]
    decreases |s|
  {
    var i := Find(s, sep, 0);
    if i <= |s| {
      var rest := s[i + |sep|..];
      SplitThenPop(rest, sep);
      assert [s[..i]] + (Finished(rest, sep) + [Tail(rest, sep)])
           == ([s[..i]] + Finished(rest, sep)) + [Tail(rest, sep)];
    }
  }

  lemma FindExtends(s: string, more: string, sep: string)
    requires Find(s, sep, 0) <= |s|
    ensures Find(s + more, sep, 0) == Find(s, sep, 0)
  {
    var i := Find(s, sep, 0);
    var t := s + more;
    FindIsLeftmost(s, sep, 0);
    assert t[i..i + |sep|] == s[i..i + |sep|];
    forall j | 0 <= j < i ensures !OccursAt(t, sep, j) {
      assert !OccursAt(s, sep, j);
      assert t[j..j + |sep|] == s[j..j + |sep|];
    }
    FindIs(t, sep, i);
  }

  /** Splitting is incremental: the finished parts of a prefix stay, and only its tail is split again. */
  lemma {:induction false} SplitExtends(s: string, more: string, sep: string)
    requires sep != []
    ensures Finished(s + more, sep) == Finished(s, sep) + Finished(Tail(s, sep) + more, sep)
    ensures Tail(s + more, sep) == Tail(Tail(s, sep) + more, sep)
    decreases |s|
  {
    hide Find;
    var i := Find(s, sep, 0);
    if i > |s| {
      assert [] + Finished(s + more, sep) == Finished(s + more, sep);
    } else {
      var rest := s[i + |sep|..];
      FindExtends(s, more, sep);
      CutAppended(s, more, i);
      CutAppended(s, more, i + |sep|);
      SplitExtends(rest, more, sep);
      calc {
        Tail(s + more, sep);
        Tail(rest + more, sep);
        Tail(Tail(rest, sep) + more, sep);
        Tail(Tail(s, sep) + more, sep);
      }
      Reassociate([s[..i]], Finished(rest, sep), Finished(Tail(rest, sep) + more, sep));
    }
  }

  /** Joining with the separator undoes splitting, for every string. */
  lemma {:induction false} JoinUndoesSplit(s: string, sep: string)
    requires sep != []
    ensures Join(Split(s, sep), sep) == s
    decreases |s|
  {
    var i := Find(s, sep, 0);
    if i <= |s| {
      FindIsLeftmost(s, sep, 0);
      var rest := s[i + |sep|..];
      JoinUndoesSplit(rest, sep);
      assert Split(s, sep)[1..] == Split(rest, sep);
      assert s == s[..i] + sep + rest;
    }
  }

  lemma OccursOne(s: string, c: char, i: nat)
    ensures OccursAt(s, [c], i) <==> i < |s| && s[i] == c
  {
    if i < |s| {
      assert s[i..i + 1] == [s[i]];
      assert [s[i]][0] == s[i] && [c][0] == c;
    }
  }

  predicate Lacks(s: string, c: char) {
    c !in s
  }

  /** Splitting on one character undoes joining parts that lack it. */
  lemma {:induction false} SplitUndoesJoin(parts: seq<string>, c: char)
    requires parts != [] && forall p :: p in parts ==> Lacks(p, c)
    ensures Split(Join(parts, [c]), [c]) == parts
  {
    var s := Join(parts, [c]);
    var first := parts[0];
    FindIsLeftmost(s, [c], 0);
    if |parts| == 1 {
      forall j | 0 <= j <= |s| ensures !OccursAt(s, [c], j) {
        OccursOne(s, c, j);
        assert Lacks(first, c);
      }
    } else {
      var rest := Join(parts[1..], [c]);
      assert s == first + [c] + rest;
      assert s[|first|..|first| + 1] == [c];
      forall j | 0 <= j < |first| ensures !OccursAt(s, [c], j) {
        OccursOne(s, c, j);
        assert Lacks(first, c) && s[j] == first[j];
      }
      FindIs(s, [c], |first|);
      assert s[|first| + 1..] == rest && s[..|first|] == first;
      SplitUndoesJoin(parts[1..], c);
    }
  }

  /** Every part that `split` on one character returns lacks that character. */
  lemma {:induction false} SplitPartsLack(s: string, c: char)
    ensures forall p :: p in Split(s, [c]) ==> Lacks(p, c)
    decreases |s|
  {
    var i := Find(s, [c], 0);
    FindIsLeftmost(s, [c], 0);
    var head := if i > |s| then s else s[..i];
    if c in head {
      var j :| 0 <= j < |head| && head[j] == c;
      OccursOne(s, c, j);
    }
    if i <= |s| {
      SplitPartsLack(s[i + 1..], c);
    }
  }
}
