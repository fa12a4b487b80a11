/** The handful of JavaScript string primitives the sheet decoder relies on:
    `String.prototype.trim`, `String.prototype.split` with a one-character
    separator, `replace(/\r$/, '')`, and the decimal rendering a template
    literal gives a non-negative integer. Strings are sequences of Unicode
    scalar values. */
module JsText {

  /** The characters `trim` removes: ECMAScript WhiteSpace (tab, vertical tab,
      form feed, space, no-break space, byte-order mark and the Unicode space
      separators) and LineTerminator (line feed, carriage return, line and
      paragraph separator). */
  predicate IsJsWhitespace(c: char) {
    || c == '\t' || c == '\n' || c == '\U{000B}' || c == '\U{000C}' || c == '\r'
    || c == ' ' || c == '\U{00A0}' || c == '\U{1680}'
    || ('\U{2000}' <= c <= '\U{200A}')
    || c == '\U{2028}' || c == '\U{2029}' || c == '\U{202F}' || c == '\U{205F}'
    || c == '\U{3000}' || c == '\U{FEFF}'
  }

  predicate AllWhitespace(s: string) {
    forall i :: 0 <= i < |s| ==> IsJsWhitespace(s[i])
  }

  /** Every character of `s` from position `lo` up to `hi` is whitespace. */
  predicate WhitespaceBetween(s: string, lo: nat, hi: nat)
    requires lo <= hi <= |s|
  {
    forall k :: lo <= k < hi ==> IsJsWhitespace(s[k])
  }

  /** Neither end of `s` is whitespace. */
  predicate NoEdgeWhitespace(s: string) {
    s == [] || (!IsJsWhitespace(s[0]) && !IsJsWhitespace(s[|s| - 1]))
  }

  /** `r` is what is left of `s` once a whitespace prefix and a whitespace
      suffix are cut away, and nothing more can be cut. */
  ghost predicate TrimmedFrom(r: string, s: string) {
    exists i, j :: 0 <= i <= j <= |s| && r == s[i..j]
      && WhitespaceBetween(s, 0, i) && WhitespaceBetween(s, j, |s|) && NoEdgeWhitespace(r)
  }

  /** The first position at or after `i` that does not hold whitespace, or
      the length when there is none: where `trim` starts cutting. */
  function SkipLeading(s: string, i: nat): (p: nat)
    requires i <= |s|
    ensures i <= p <= |s|
    ensures WhitespaceBetween(s, i, p)
    ensures p < |s| ==> !IsJsWhitespace(s[p])
    decreases |s| - i
  {
    if i < |s| && IsJsWhitespace(s[i]) then SkipLeading(s, i + 1) else i
  }

  /** The end of the last non-whitespace character before `j`, no lower than
      `lo`: where `trim` stops cutting from the right. */
  function SkipTrailing(s: string, lo: nat, j: nat): (q: nat)
    requires lo <= j <= |s|
    ensures lo <= q <= j
    ensures WhitespaceBetween(s, q, j)
    ensures q > lo ==> !IsJsWhitespace(s[q - 1])
    decreases j
  {
    if j > lo && IsJsWhitespace(s[j - 1]) then SkipTrailing(s, lo, j - 1) else j
  }

  /** `String.prototype.trim`: a whitespace prefix and a whitespace suffix
      are cut, leaving no whitespace at either end. */
  function Trim(s: string): (r: string)
    ensures TrimmedFrom(r, s)
    ensures r == [] <==> AllWhitespace(s)
  {
    var i := SkipLeading(s, 0);
    s[i..SkipTrailing(s, i, |s|)]
  }

  /** `Trim` cuts a whitespace prefix and a whitespace suffix and leaves no
      whitespace at either end; it leaves nothing exactly when the whole
      string is whitespace. */
  lemma TrimCharacterised(s: string)
    ensures TrimmedFrom(Trim(s), s)
    ensures Trim(s) == [] <==> AllWhitespace(s)
  {
  }

  /** The trim of a string is unique: any way of cutting whitespace off both
      ends that leaves no edge whitespace gives exactly `Trim`. */
  lemma TrimUnique(r: string, s: string)
    requires TrimmedFrom(r, s)
    ensures r == Trim(s)
  {
  }

  /** A string with no whitespace at either end is its own trim. */
  lemma TrimOfTrimmed(s: string)
    requires NoEdgeWhitespace(s)
    ensures Trim(s) == s
  {
  }

  /** Trimming twice is trimming once. */
  lemma TrimIdempotent(s: string)
    ensures Trim(Trim(s)) == Trim(s)
  {
  }

  /** Every character of a trim is a character of the original. */
  lemma TrimKeepsCharacters(s: string, c: char)
    requires c !in s
    ensures c !in Trim(s)
  {
  }

  /** `replace(/\r$/, '')`: the pattern has no multiline flag, so `$` only
      matches at the very end and at most one carriage return goes. */
  function StripTrailingCR(s: string): (r: string)
    ensures s == r || s == r + ['\r']
    ensures |s| > 0 && s[|s| - 1] == '\r' ==> |r| == |s| - 1
  {
    if |s| > 0 && s[|s| - 1] == '\r' then s[..|s| - 1] else s
  }

  /** A trimmed string never ends in a carriage return, so the decoder's
      `replace(/\r$/, '')` after `trim()` never changes anything. */
  lemma StripAfterTrimIsIdentity(s: string)
    ensures StripTrailingCR(Trim(s)) == Trim(s)
  {
  }

  /** Inverse of `Split`: the parts glued back together with the separator. */
  function Join(parts: seq<string>, sep: char): string
    requires |parts| >= 1
  {
    if |parts| == 1 then parts[0] else parts[0] + [sep] + Join(parts[1..], sep)
  }

  /** `String.prototype.split` with a one-character string separator: the
      maximal separator-free runs, so `n` separators give `n + 1` parts and
      the empty string gives one empty part. */
  function Split(s: string, sep: char): (parts: seq<string>)
    ensures |parts| >= 1
    ensures forall k :: 0 <= k < |parts| ==> sep !in parts[k]
    ensures Join(parts, sep) == s
  {
    if s == [] then [""]
    else
      var rest := Split(s[1..], sep);
      if s[0] == sep then [""] + rest
      else
        var parts := [[s[0]] + rest[0]] + rest[1..];
        assert parts[1..] == rest[1..];
        parts
  }

  /** One step of `Split`: a leading separator opens a new empty part, any
      other leading character joins the first part. */
  lemma SplitCons(c: char, t: string, sep: char)
    ensures Split([c] + t, sep)
         == if c == sep then [""] + Split(t, sep)
            else [[c] + Split(t, sep)[0]] + Split(t, sep)[1..]
  {
    assert ([c] + t)[1..] == t;
  }

  /** The first character of a join is the first character of its first
      part, when that part is not empty. */
  lemma JoinFirstChar(parts: seq<string>, sep: char)
    requires |parts| >= 1 && parts[0] != []
    ensures Join(parts, sep) == [parts[0][0]] + Join([parts[0][1..]] + parts[1..], sep)
  {
    var shorter := [parts[0][1..]] + parts[1..];
    assert shorter[0] == parts[0][1..] && shorter[1..] == parts[1..];
    assert parts[0] == [parts[0][0]] + parts[0][1..];
  }

  /** Dropping the first character of the first part keeps every part free
      of the separator. */
  lemma ShorterHeadNoSeparator(parts: seq<string>, sep: char)
    requires |parts| >= 1 && parts[0] != []
    requires forall k :: 0 <= k < |parts| ==> sep !in parts[k]
    ensures forall k :: 0 <= k < |[parts[0][1..]] + parts[1..]| ==> sep !in ([parts[0][1..]] + parts[1..])[k]
  {
    var shorter := [parts[0][1..]] + parts[1..];
    forall k | 0 <= k < |shorter| ensures sep !in shorter[k] {
      if k == 0 { assert forall c :: c in parts[0][1..] ==> c in parts[0]; }
      else { assert shorter[k] == parts[k]; }
    }
  }

  /** Splitting a join of separator-free parts gives the parts back. */
  lemma {:induction false} SplitJoin(parts: seq<string>, sep: char)
    requires |parts| >= 1
    requires forall k :: 0 <= k < |parts| ==> sep !in parts[k]
    ensures Split(Join(parts, sep), sep) == parts
    decreases |parts|, |parts[0]|
  {
    if |parts| == 1 {
      SplitNoSeparator(parts[0], sep);
    } else if parts[0] == [] {
      var tail := parts[1..];
      SplitJoin(tail, sep);
      assert Join(parts, sep) == [sep] + Join(tail, sep);
      SplitCons(sep, Join(tail, sep), sep);
      assert parts == [""] + tail;
    } else {
      var head := parts[0];
      var shorter := [head[1..]] + parts[1..];
      ShorterHeadNoSeparator(parts, sep);
      SplitJoin(shorter, sep);
      JoinFirstChar(parts, sep);
      SplitCons(head[0], Join(shorter, sep), sep);
      assert head == [head[0]] + shorter[0];
      assert parts == [head] + shorter[1..];
    }
  }

  lemma {:induction false} JoinAppend(a: seq<string>, b: seq<string>, sep: char)
    requires |a| >= 1 && |b| >= 1
    ensures Join(a + b, sep) == Join(a, sep) + [sep] + Join(b, sep)
    decreases |a|
  {
    if |a| > 1 {
      JoinAppend(a[1..], b, sep);
      assert (a + b)[1..] == a[1..] + b;
    } else {
      assert (a + b)[1..] == b;
    }
  }

  /** Splitting at a separator splits the two sides independently. */
  lemma SplitAppend(x: string, y: string, sep: char)
    ensures Split(x + [sep] + y, sep) == Split(x, sep) + Split(y, sep)
  {
    var px := Split(x, sep);
    var py := Split(y, sep);
    JoinAppend(px, py, sep);
    assert forall k :: 0 <= k < |px + py| ==> sep !in (px + py)[k] by {
      forall k | 0 <= k < |px + py| ensures sep !in (px + py)[k] {
        if k < |px| { assert (px + py)[k] == px[k]; } else { assert (px + py)[k] == py[k - |px|]; }
      }
    }
    SplitJoin(px + py, sep);
  }

  lemma {:induction false} SplitNoSeparator(s: string, sep: char)
    requires sep !in s
    ensures Split(s, sep) == [s]
    decreases |s|
  {
    if s != [] {
      SplitNoSeparator(s[1..], sep);
      assert [s[0]] + s[1..] == s;
    }
  }

  /** The character of a single decimal digit. */
  function DigitChar(d: nat): (c: char)
    requires d < 10
    ensures '0' <= c <= '9'
  {
    ['0', '1', '2', '3', '4', '5', '6', '7', '8', '9'][d]
  }

  function DigitValue(c: char): (d: nat)
    requires '0' <= c <= '9'
    ensures d < 10 && DigitChar(d) == c
  {
    if c == '0' then 0 else if c == '1' then 1 else if c == '2' then 2
    else if c == '3' then 3 else if c == '4' then 4 else if c == '5' then 5
    else if c == '6' then 6 else if c == '7' then 7 else if c == '8' then 8 else 9
  }

  predicate AllDigits(s: string) {
    forall i :: 0 <= i < |s| ==> '0' <= s[i] <= '9'
  }

  /** What `${n}` gives for a non-negative integer: its decimal digits, no
      sign and no leading zero. */
  function Decimal(n: nat): (r: string)
    ensures |r| >= 1 && AllDigits(r)
    ensures '-' !in r
  {
    if n < 10 then [DigitChar(n)] else Decimal(n / 10) + [DigitChar(n % 10)]
  }

  /** Reads back a string of decimal digits. */
  function ParseDecimal(s: string): nat
    requires AllDigits(s)
  {
    if s == [] then 0 else 10 * ParseDecimal(s[..|s| - 1]) + DigitValue(s[|s| - 1])
  }

  /** Reading back a decimal rendering gives the number. */
  lemma {:induction false} DecimalRoundTrip(n: nat)
    ensures ParseDecimal(Decimal(n)) == n
  {
    var r := Decimal(n);
    if n >= 10 {
      DecimalRoundTrip(n / 10);
      assert r[..|r| - 1] == Decimal(n / 10);
    }
  }

  /** Different numbers render differently. */
  lemma DecimalInjective(m: nat, n: nat)
    requires Decimal(m) == Decimal(n)
    ensures m == n
  {
    DecimalRoundTrip(m);
    DecimalRoundTrip(n);
  }
}
