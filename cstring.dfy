/**
 * The C library routines the status parser of psinfo-l relies on, as pure
 * functions over character sequences: the view of a buffer as a
 * NUL-terminated string, strtok with the delimiter set ":\t" (in the
 * two-call pattern the parser uses), strstr as a containment test, and atoi.
 */
module CString {

  datatype Option<+T> = None | Some(value: T)

  /** The text a C string buffer holds: the characters before the first NUL. */
  function CStr(s: string): (r: string)
  {
    s[..Span(s, NonNul)]
  }

  /** The C string is the longest NUL-free prefix of the buffer, so a buffer without NUL is read whole. */
  lemma {:induction false} CStrPrefix(s: string)
    ensures CStr(s) <= s && '\0' !in CStr(s)
    ensures |CStr(s)| < |s| ==> s[|CStr(s)|] == '\0'
    ensures '\0' !in s ==> CStr(s) == s
  {
    SpanMaximal(s, NonNul);
    if '\0' !in s {
      SpanUnique(s, NonNul, |s|);
    }
  }

  /** The character classes the routines below scan over. */
  datatype Class = NonNul | Delimiter | NonDelimiter | Space | Digit

  predicate In(c: char, cls: Class)
  {
    match cls
    case NonNul => c != '\0'
    case Delimiter => IsDelimiter(c)
    case NonDelimiter => !IsDelimiter(c)
    case Space => IsSpace(c)
    case Digit => IsDigit(c)
  }

  /** The length of the longest prefix of `s` made of characters of class `cls`. */
  function Span(s: string, cls: Class): (n: nat)
    ensures n <= |s|
  {
    if s != [] && In(s[0], cls) then 1 + Span(s[1..], cls) else 0
  }

  /** Span's prefix is all of class `cls`, and the character after it is not. */
  lemma {:induction false} SpanMaximal(s: string, cls: Class)
    ensures forall k :: 0 <= k < Span(s, cls) ==> In(s[k], cls)
    ensures Span(s, cls) < |s| ==> !In(s[Span(s, cls)], cls)
  {
    if s != [] && In(s[0], cls) {
      SpanMaximal(s[1..], cls);
    }
  }

  /** The two properties in Span's contract determine its result. */
  lemma {:induction false} SpanUnique(s: string, cls: Class, n: nat)
    requires n <= |s|
    requires forall k :: 0 <= k < n ==> In(s[k], cls)
    requires n < |s| ==> !In(s[n], cls)
    ensures Span(s, cls) == n
  {
    if n > 0 {
      SpanUnique(s[1..], cls, n - 1);
    }
  }

  // ---------------------------------------------------------------------
  // strtok(_, ":\t")
  // ---------------------------------------------------------------------

  /** The delimiter set every strtok call of the parser passes. Newline and space are not in it. */
  predicate IsDelimiter(c: char) { c == ':' || c == '\t' }

  predicate AllDelimiters(s: string) { forall k :: 0 <= k < |s| ==> IsDelimiter(s[k]) }

  predicate NoDelimiters(s: string) { forall k :: 0 <= k < |s| ==> !IsDelimiter(s[k]) }

  /** strspn(s, ":\t") */
  function Strspn(s: string): nat { Span(s, Delimiter) }

  /** strcspn(s, ":\t") */
  function Strcspn(s: string): nat { Span(s, NonDelimiter) }

  /** What one strtok call yields: the token, and the text the next call
      (with a NULL first argument) resumes from. */
  datatype Split = Split(token: string, rest: string)

  /** `s` consists of the delimiters s[..i], the non-empty delimiter-free
      token `t`, and then either nothing, or one delimiter (the one strtok
      overwrites with NUL) followed by `rest`. */
  ghost predicate Tokenizes(s: string, i: nat, t: string, rest: string)
  {
    && i + |t| <= |s|
    && AllDelimiters(s[..i])
    && t != [] && NoDelimiters(t)
    && s[i..i + |t|] == t
    && if i + |t| == |s| then rest == [] else IsDelimiter(s[i + |t|]) && rest == s[i + |t| + 1..]
  }

  /** One call of strtok with delimiters ":\t" on the text `s` it scans:
      None stands for the NULL it returns when only delimiters remain. */
  function Strtok(s: string): Option<Split>
  {
    var i := Strspn(s);
    if i == |s| then None
    else
      var n := Strcspn(s[i..]);
      Some(Split(s[i..i + n], if i + n == |s| then [] else s[i + n + 1..]))
  }

  /** strtok returns NULL exactly when only delimiters remain; otherwise it
      skips the leading delimiters and returns the maximal token after them,
      resuming after the one delimiter that ends it. */
  lemma StrtokTokenizes(s: string)
    ensures Strtok(s).None? <==> AllDelimiters(s)
    ensures Strtok(s).Some? ==> Tokenizes(s, Strspn(s), Strtok(s).value.token, Strtok(s).value.rest)
  {
    var i := Strspn(s);
    SpanMaximal(s, Delimiter);
    if i < |s| {
      var n := Strcspn(s[i..]);
      SpanMaximal(s[i..], NonDelimiter);
      assert s[i..][..n] == s[i..i + n];
    } else {
      assert s[..i] == s;
    }
  }

  /** A token and what follows it are never longer than the text scanned. */
  lemma StrtokShrinks(s: string)
    ensures Strtok(s).Some? ==> |Strtok(s).value.token| <= |s| && |Strtok(s).value.rest| < |s|
  {
  }

  /** A tokenisation in the sense of Tokenizes is unique, so it is exactly what strtok returns. */
  lemma StrtokUnique(s: string, i: nat, t: string, rest: string)
    requires Tokenizes(s, i, t, rest)
    ensures Strtok(s) == Some(Split(t, rest))
  {
    TokenStart(s, i, t, rest);
    TokenLength(s, i, t, rest);
    var n := |t|;
    assert i < |s|;
    assert Strtok(s) == Some(Split(s[i..i + n], if i + n == |s| then [] else s[i + n + 1..]));
  }

  lemma TokenStart(s: string, i: nat, t: string, rest: string)
    requires Tokenizes(s, i, t, rest)
    ensures Strspn(s) == i
  {
    forall k | 0 <= k < i
      ensures IsDelimiter(s[k])
    {
      assert s[..i][k] == s[k];
    }
    assert s[i] == t[0];
    SpanUnique(s, Delimiter, i);
  }

  lemma TokenLength(s: string, i: nat, t: string, rest: string)
    requires Tokenizes(s, i, t, rest)
    ensures Strcspn(s[i..]) == |t|
  {
    var u := s[i..];
    forall k | 0 <= k < |t|
      ensures !IsDelimiter(u[k])
    {
      assert u[k] == t[k];
    }
    SpanUnique(u, NonDelimiter, |t|);
  }

  // ---------------------------------------------------------------------
  // strstr
  // ---------------------------------------------------------------------

  /** `needle` occurs in `hay` as a contiguous piece. */
  ghost predicate Occurs(needle: string, hay: string)
  {
    exists i :: OccursAt(needle, hay, i)
  }

  ghost predicate OccursAt(needle: string, hay: string, i: int)
  {
    0 <= i <= |hay| - |needle| && hay[i..i + |needle|] == needle
  }

  /** A piece of an occurrence is itself an occurrence. */
  lemma OccursWithin(needle: string, hay: string, i: int, d: nat)
    requires OccursAt(needle, hay, i) && d <= |needle|
    ensures OccursAt(needle[d..], hay, i + d)
  {
    assert hay[i + d..i + |needle|] == hay[i..i + |needle|][d..];
  }

  /** strstr(hay, needle) != NULL: try every starting position from the left. */
  predicate Strstr(hay: string, needle: string)
    decreases |hay|
  {
    needle <= hay || (hay != [] && Strstr(hay[1..], needle))
  }

  lemma {:induction false} StrstrOccurs(hay: string, needle: string)
    ensures Strstr(hay, needle) <==> Occurs(needle, hay)
    decreases |hay|
  {
    if needle <= hay {
      assert OccursAt(needle, hay, 0);
    } else if hay == [] {
    } else {
      StrstrOccurs(hay[1..], needle);
      if Occurs(needle, hay) {
        var i :| OccursAt(needle, hay, i);
        assert i != 0;
        assert hay[1..][i - 1..i - 1 + |needle|] == needle;
        assert OccursAt(needle, hay[1..], i - 1);
      }
      if Occurs(needle, hay[1..]) {
        var i :| OccursAt(needle, hay[1..], i);
        assert hay[i + 1..i + 1 + |needle|] == needle;
        assert OccursAt(needle, hay, i + 1);
      }
    }
  }

  /** A needle whose first character the haystack lacks is not found. */
  lemma {:induction false} StrstrMissingFirst(hay: string, needle: string)
    requires needle != [] && needle[0] !in hay
    ensures !Strstr(hay, needle)
    decreases |hay|
  {
    if hay != [] {
      StrstrMissingFirst(hay[1..], needle);
    }
  }

  /** A needle longer than the haystack is not found. */
  lemma {:induction false} StrstrTooLong(hay: string, needle: string)
    requires |needle| > |hay|
    ensures !Strstr(hay, needle)
    decreases |hay|
  {
    if hay != [] {
      StrstrTooLong(hay[1..], needle);
    }
  }

  // ---------------------------------------------------------------------
  // atoi
  // ---------------------------------------------------------------------

  /** isspace in the C locale: space, \t, \n, \v, \f, \r. */
  predicate IsSpace(c: char) { c == ' ' || '\t' <= c <= '\r' }

  predicate IsDigit(c: char) { '0' <= c <= '9' }

  predicate AllDigits(s: string) { forall k :: 0 <= k < |s| ==> IsDigit(s[k]) }

  /** The digit loop of atoi: while the next character is a digit, the
      value so far is multiplied by ten and the digit added; the first
      non-digit ends the number. */
  function Accumulate(u: string, acc: nat): nat
  {
    if u != [] && IsDigit(u[0]) then Accumulate(u[1..], 10 * acc + (u[0] as int - '0' as int)) else acc
  }

  /** atoi: skip leading white space, read an optional sign, then the
      longest run of decimal digits; anything after it is ignored, and no
      digits at all give 0. */
  function Atoi(s: string): int
  {
    var t := s[Span(s, Space)..];
    if t != [] && t[0] == '-' then -(Accumulate(t[1..], 0) as int)
    else if t != [] && t[0] == '+' then Accumulate(t[1..], 0)
    else Accumulate(t, 0)
  }

  /** The decimal spelling of `n`, without sign or leading zeros. */
  function Decimal(n: nat): (s: string)
    ensures s != [] && AllDigits(s)
    ensures |s| > 1 ==> s[0] != '0'
  {
    var d := ['0' + (n % 10) as char];
    if n < 10 then d else Decimal(n / 10) + d
  }

  /** Reading a run of digits and then more text is reading the rest starting from the run's value. */
  lemma {:induction false} AccumulateSplit(s: string, rest: string, acc: nat)
    requires AllDigits(s)
    ensures Accumulate(s + rest, acc) == Accumulate(rest, Accumulate(s, acc))
  {
    if s == [] {
      assert s + rest == rest;
    } else {
      AccumulateSplit(s[1..], rest, 10 * acc + (s[0] as int - '0' as int));
      assert (s + rest)[1..] == s[1..] + rest;
    }
  }

  /** The digit loop reads back what Decimal spells, up to the first non-digit. */
  lemma {:induction false} AccumulateDecimal(n: nat, tail: string)
    requires tail == [] || !IsDigit(tail[0])
    ensures Accumulate(Decimal(n) + tail, 0) == n
  {
    var d := ['0' + (n % 10) as char];
    if n < 10 {
      assert (d + tail)[1..] == tail;
    } else {
      var high := Decimal(n / 10);
      AccumulateDecimal(n / 10, []);
      assert high + [] == high;
      AccumulateSplit(high, d + tail, 0);
      assert Decimal(n) + tail == high + (d + tail);
      assert (d + tail)[1..] == tail;
    }
  }

  /** atoi reads back what Decimal spells, whatever white space precedes it
      and whatever non-digit follows it, with or without a sign. */
  lemma AtoiDecimal(space: string, sign: string, n: nat, tail: string)
    requires forall k :: 0 <= k < |space| ==> IsSpace(space[k])
    requires sign == [] || sign == ['+'] || sign == ['-']
    requires tail == [] || !IsDigit(tail[0])
    ensures Atoi(space + sign + Decimal(n) + tail) == if sign == ['-'] then -(n as int) else n
  {
    var y := Decimal(n) + tail;
    var x := sign + y;
    assert space + sign + Decimal(n) + tail == space + x;
    assert x[0] == '+' || x[0] == '-' || IsDigit(x[0]);
    AtoiSkipsSpace(space, x);
    AtoiUnspaced(x);
    AccumulateDecimal(n, tail);
    if sign == [] {
      assert x == y;
    } else {
      assert x[1..] == y;
    }
  }

  /** atoi of text that does not start with white space. */
  lemma AtoiUnspaced(x: string)
    requires x == [] || !IsSpace(x[0])
    ensures Atoi(x) == if x != [] && x[0] == '-' then -(Accumulate(x[1..], 0) as int)
                       else if x != [] && x[0] == '+' then Accumulate(x[1..], 0)
                       else Accumulate(x, 0)
  {
    SpanPrefix([], x, Space);
    assert [] + x == x;
  }

  /** Leading white space does not change what atoi reads. */
  lemma AtoiSkipsSpace(space: string, x: string)
    requires forall k :: 0 <= k < |space| ==> IsSpace(space[k])
    requires x == [] || !IsSpace(x[0])
    ensures Atoi(space + x) == Atoi(x)
  {
    SpanPrefix(space, x, Space);
    assert (space + x)[|space|..] == x;
    SpanPrefix([], x, Space);
    assert [] + x == x;
  }

  /** Span stops exactly where `p` ends when `q` does not start with an accepted character. */
  lemma SpanPrefix(p: string, q: string, cls: Class)
    requires forall k :: 0 <= k < |p| ==> In(p[k], cls)
    requires q == [] || !In(q[0], cls)
    ensures Span(p + q, cls) == |p|
  {
    var s := p + q;
    forall k | 0 <= k < |p|
      ensures In(s[k], cls)
    {
      assert s[k] == p[k];
    }
    SpanUnique(s, cls, |p|);
  }
}
