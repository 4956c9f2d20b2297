/**
 The few pieces of Python 2 string behaviour the file server relies on:
 `str.split()` with no argument, `int()` on a decimal field, the `%d`
 conversion used to format reply frames, and the slice `data[:n]`.
 Python 2 `str` values are byte strings; they are modelled as `string`.
 */
module PyText {

  datatype Option<T> = None | Some(value: T)

  /** The characters `str.split()` treats as separators. */
  predicate IsSpace(c: char) {
    c == ' ' || c == '\t' || c == '\n' || c == '\r' || c == '\U{B}' || c == '\U{C}'
  }

  /** A field `str.split()` can return: non-empty, with no separator in it. */
  predicate IsWord(w: string) {
    |w| > 0 && forall i :: 0 <= i < |w| ==> !IsSpace(w[i])
  }

  /** Length of the run of non-separator characters that starts `s`. */
  function WordLength(s: string): (n: nat)
    ensures n <= |s|
    ensures forall i :: 0 <= i < n ==> !IsSpace(s[i])
    ensures n < |s| ==> IsSpace(s[n])
  {
    if s == [] || IsSpace(s[0]) then 0 else 1 + WordLength(s[1..])
  }

  /** `s.split()`: the maximal runs of non-separator characters, in order. */
  function Split(s: string): (r: seq<string>)
    ensures forall i :: 0 <= i < |r| ==> IsWord(r[i])
    decreases |s|
  {
    if s == [] then []
    else if IsSpace(s[0]) then Split(s[1..])
    else
      var n := WordLength(s);
      [s[..n]] + Split(s[n..])
  }

  /** `" ".join(ws)`. */
  function JoinWords(ws: seq<string>): string {
    if ws == [] then ""
    else if |ws| == 1 then ws[0]
    else ws[0] + " " + JoinWords(ws[1..])
  }

  lemma WordLengthOfWord(w: string, t: string)
    requires IsWord(w)
    requires t == [] || IsSpace(t[0])
    ensures WordLength(w + t) == |w|
    decreases |w|
  {
    if |w| > 1 {
      assert (w + t)[1..] == w[1..] + t;
      WordLengthOfWord(w[1..], t);
    }
  }

  /** Splitting fields joined by single spaces gives the fields back. */
  lemma {:induction false} SplitJoinWords(ws: seq<string>)
    requires forall i :: 0 <= i < |ws| ==> IsWord(ws[i])
    ensures Split(JoinWords(ws)) == ws
  {
    if ws != [] {
      var w := ws[0];
      var tail := if |ws| == 1 then "" else " " + JoinWords(ws[1..]);
      assert JoinWords(ws) == w + tail;
      WordLengthOfWord(w, tail);
      assert (w + tail)[..|w|] == w;
      assert (w + tail)[|w|..] == tail;
      if |ws| == 1 {
        assert Split(tail) == [];
      } else {
        assert tail[1..] == JoinWords(ws[1..]);
        SplitJoinWords(ws[1..]);
        assert Split(tail) == ws[1..];
      }
    }
  }

  predicate IsDigit(c: char) {
    '0' <= c <= '9'
  }

  predicate AllDigits(s: string) {
    forall i :: 0 <= i < |s| ==> IsDigit(s[i])
  }

  function DigitChar(d: nat): (c: char)
    requires d < 10
    ensures IsDigit(c)
  {
    "0123456789"[d]
  }

  function DigitValue(c: char): (d: nat)
    requires IsDigit(c)
    ensures d < 10
  {
    (c as int - '0' as int) as nat
  }

  lemma DigitRoundTrip(d: nat)
    requires d < 10
    ensures DigitValue(DigitChar(d)) == d
  {
  }

  /** The value of a run of decimal digits, most significant first. */
  function DigitsValue(s: string): nat
    requires AllDigits(s)
  {
    if s == [] then 0
    else 10 * DigitsValue(s[..|s| - 1]) + DigitValue(s[|s| - 1])
  }

  /** The shortest decimal spelling of a natural number. */
  function Digits(n: nat): (s: string)
    ensures |s| > 0 && AllDigits(s)
  {
    if n < 10 then [DigitChar(n)] else Digits(n / 10) + [DigitChar(n % 10)]
  }

  /** `"%d" % n`: a minus sign exactly for a negative number, then decimal
      digits only. */
  function FormatInt(n: int): (f: string)
    ensures |f| > 0
    ensures n < 0 <==> f[0] == '-'
    ensures n < 0 ==> AllDigits(f[1..])
    ensures n >= 0 ==> AllDigits(f)
  {
    if n < 0 then "-" + Digits(-n) else Digits(n)
  }

  /** `int(s)` for a field with no surrounding blanks: an optional sign
      followed by at least one decimal digit; anything else raises. */
  function ParseInt(s: string): (r: Option<int>)
    ensures r.Some? ==> |s| > 0
    ensures s != [] && AllDigits(s) ==> r.Some? && r.value >= 0
    ensures r.Some? ==> s[0] == '-' || s[0] == '+' || IsDigit(s[0])
    ensures r.Some? && s[0] != '-' ==> r.value >= 0
    ensures r.Some? && s[0] == '-' ==> r.value <= 0
  {
    if s == [] then None
    else if s[0] == '-' || s[0] == '+' then
      var ds := s[1..];
      if ds != [] && AllDigits(ds) then
        var v: int := DigitsValue(ds);
        Some(if s[0] == '-' then -v else v)
      else None
    else if AllDigits(s) then Some(DigitsValue(s))
    else None
  }

  lemma {:induction false} DigitsValueOfDigits(n: nat)
    ensures DigitsValue(Digits(n)) == n
  {
    if n < 10 {
      DigitRoundTrip(n);
    } else {
      var s := Digits(n);
      assert s[..|s| - 1] == Digits(n / 10);
      DigitsValueOfDigits(n / 10);
      DigitRoundTrip(n % 10);
    }
  }

  lemma ParseDigits(n: nat)
    ensures ParseInt(Digits(n)) == Some(n)
  {
    var ds := Digits(n);
    assert IsDigit(ds[0]);
    DigitsValueOfDigits(n);
  }

  lemma ParseNegativeDigits(m: int)
    requires m < 0
    ensures ParseInt("-" + Digits(-m)) == Some(m)
  {
    var n: nat := -m;
    var ds := Digits(n);
    var s := "-" + ds;
    assert s[0] == '-' && s[1..] == ds;
    DigitsValueOfDigits(n);
  }

  /** `int("%d" % n) == n`: the reply formatter and the header parser agree. */
  lemma ParseFormatInt(n: int)
    ensures ParseInt(FormatInt(n)) == Some(n)
  {
    if n < 0 {
      assert FormatInt(n) == "-" + Digits(-n);
      ParseNegativeDigits(n);
    } else {
      assert FormatInt(n) == Digits(n);
      ParseDigits(n);
    }
  }

  /** A formatted integer is one field: no separator inside, never empty. */
  lemma FormatIntIsWord(n: int)
    ensures IsWord(FormatInt(n))
  {
    var s := FormatInt(n);
    forall i | 0 <= i < |s| ensures !IsSpace(s[i]) {
      if n < 0 && i > 0 {
        assert s[i] == Digits(-n)[i - 1];
      }
    }
  }

  /** Python's `data[:n]`: the first `n` characters, or for a negative `n`
      all but the last `-n`; never more than `data` holds. */
  function Slice(data: string, n: int): (r: string)
    ensures r <= data
    ensures n >= 0 ==> |r| == if n < |data| then n else |data|
    ensures n < 0 ==> |r| == if |data| + n > 0 then |data| + n else 0
  {
    if n >= 0 then
      if n < |data| then data[..n] else data
    else
      if |data| + n > 0 then data[..|data| + n] else []
  }
}
