/**
 * Text helpers standing in for the parts of Go's `strings` and `fmt`
 * packages the generator uses: `strings.Replace(s, q, qq, -1)` (quote
 * doubling), `strings.Join`, and `%d` on a non-negative integer.
 */
module Text {
  import opened Wrappers

  /** Number of occurrences of `q` in `s`. */
  function Count(q: char, s: string): nat
  {
    if s == [] then 0 else (if s[0] == q then 1 else 0) + Count(q, s[1..])
  }

  /** `s` with every occurrence of `q` doubled. */
  function Escape(q: char, s: string): (r: string)
    ensures |r| == |s| + Count(q, s)
    ensures Count(q, r) == 2 * Count(q, s)
  {
    if s == [] then []
    else (if s[0] == q then [q, q] else [s[0]]) + Escape(q, s[1..])
  }

  /** Identifier quoting shared by the dialects: wrap in `q`, doubling every embedded `q`. */
  function Quote(q: char, s: string): (r: string)
    ensures |r| == |s| + Count(q, s) + 2
    ensures r[0] == q && r[|r| - 1] == q
  {
    [q] + Escape(q, s) + [q]
  }

  /**
   * Reads the interior of a quoted identifier whose opening quote has already
   * been consumed: a doubled `q` stands for one `q`, a single `q` closes it.
   * Returns the identifier and what follows the closing quote.
   */
  function Scan(q: char, t: string): (r: Option<(string, string)>)
    ensures r.Some? ==> |r.value.1| < |t|
  {
    if t == [] then None
    else if t[0] == q then
      if |t| >= 2 && t[1] == q then
        var p :- Scan(q, t[2..]);
        Some(([q] + p.0, p.1))
      else
        Some(([], t[1..]))
    else
      var p :- Scan(q, t[1..]);
      Some(([t[0]] + p.0, p.1))
  }

  /** Reads one quoted identifier from the front of `s`. */
  function ReadQuoted(q: char, s: string): (r: Option<(string, string)>)
    ensures r.Some? ==> |r.value.1| < |s|
  {
    if s != [] && s[0] == q then Scan(q, s[1..]) else None
  }

  /** The identifier that `r` quotes, if `r` is exactly one quoted identifier. */
  function Unquote(q: char, r: string): Option<string>
  {
    match ReadQuoted(q, r)
    case Some(p) => if p.1 == [] then Some(p.0) else None
    case None => None
  }

  lemma {:induction false} ScanEscaped(q: char, s: string, rest: string)
    requires rest == [] || rest[0] != q
    ensures Scan(q, Escape(q, s) + [q] + rest) == Some((s, rest))
  {
    var t := Escape(q, s) + [q] + rest;
    if s == [] {
      assert t == [q] + rest;
      assert t[1..] == rest;
    } else {
      var tail := Escape(q, s[1..]) + [q] + rest;
      assert Scan(q, tail) == Some((s[1..], rest)) by {
        ScanEscaped(q, s[1..], rest);
      }
      assert [s[0]] + s[1..] == s;
      if s[0] == q {
        assert t == [q, q] + tail && t[2..] == tail by {
          assert Escape(q, s) == [q, q] + Escape(q, s[1..]);
        }
      } else {
        assert t == [s[0]] + tail && t[1..] == tail by {
          assert Escape(q, s) == [s[0]] + Escape(q, s[1..]);
        }
      }
    }
  }

  lemma {:induction false} ScanSound(q: char, t: string)
    requires Scan(q, t).Some?
    ensures t == Escape(q, Scan(q, t).value.0) + [q] + Scan(q, t).value.1
    ensures Scan(q, t).value.1 == [] || Scan(q, t).value.1[0] != q
  {
    var r := Scan(q, t).value;
    if t[0] == q && |t| >= 2 && t[1] == q {
      var p := Scan(q, t[2..]).value;
      assert r == ([q] + p.0, p.1);
      assert t[2..] == Escape(q, p.0) + [q] + p.1 by {
        ScanSound(q, t[2..]);
      }
      assert t == Escape(q, r.0) + [q] + r.1 by {
        EscapeCons(q, q, p.0);
        assert t == [q, q] + t[2..];
      }
      ScanSound(q, t[2..]);
    } else if t[0] == q {
      assert r == ([], t[1..]);
      assert t == [q] + t[1..];
    } else {
      var p := Scan(q, t[1..]).value;
      assert r == ([t[0]] + p.0, p.1);
      assert t[1..] == Escape(q, p.0) + [q] + p.1 by {
        ScanSound(q, t[1..]);
      }
      assert t == Escape(q, r.0) + [q] + r.1 by {
        EscapeCons(q, t[0], p.0);
        assert t == [t[0]] + t[1..];
      }
      ScanSound(q, t[1..]);
    }
  }

  /** Escaping one more character in front. */
  lemma EscapeCons(q: char, c: char, s: string)
    ensures Escape(q, [c] + s) == (if c == q then [q, q] else [c]) + Escape(q, s)
  {
    assert ([c] + s)[1..] == s;
  }

  /** A quoted identifier followed by text that does not start with a quote reads back. */
  lemma ReadQuotedOfQuote(q: char, s: string, rest: string)
    requires rest == [] || rest[0] != q
    ensures ReadQuoted(q, Quote(q, s) + rest) == Some((s, rest))
  {
    ScanEscaped(q, s, rest);
    assert (Quote(q, s) + rest)[1..] == Escape(q, s) + [q] + rest;
  }

  /** Round trip: un-doubling the interior of a quoted identifier gives it back. */
  lemma QuoteRoundTrip(q: char, s: string)
    ensures Unquote(q, Quote(q, s)) == Some(s)
  {
    ReadQuotedOfQuote(q, s, []);
    assert Quote(q, s) + [] == Quote(q, s);
  }

  /** The converse: whatever `Unquote` accepts is the quoting of what it returns. */
  lemma UnquoteSound(q: char, r: string, s: string)
    requires Unquote(q, r) == Some(s)
    ensures Quote(q, s) == r
  {
    ScanSound(q, r[1..]);
    assert r == [r[0]] + r[1..];
  }

  /** Distinct identifiers never quote to the same text. */
  lemma QuoteInjective(q: char, a: string, b: string)
    requires Quote(q, a) == Quote(q, b)
    ensures a == b
  {
    QuoteRoundTrip(q, a);
    QuoteRoundTrip(q, b);
  }

  /** Each identifier quoted with `q`, in order. */
  function QuoteEach(q: char, names: seq<string>): (r: seq<string>)
    ensures |r| == |names|
  {
    seq(|names|, i requires 0 <= i < |names| => Quote(q, names[i]))
  }

  /** Reads a comma-separated list of quoted identifiers from the front of `s`. */
  function ReadQuotedList(q: char, s: string): Option<(seq<string>, string)>
    decreases |s|
  {
    var p :- ReadQuoted(q, s);
    if p.1 != [] && p.1[0] == ',' then
      var r :- ReadQuotedList(q, p.1[1..]);
      Some(([p.0] + r.0, r.1))
    else
      Some(([p.0], p.1))
  }

  /**
   * A non-empty list of quoted identifiers joined by commas reads back as the
   * same identifiers in the same order, whatever characters they contain.
   */
  lemma {:induction false} ReadQuotedListOfJoin(q: char, names: seq<string>, rest: string)
    requires |names| > 0 && q != ','
    requires rest == [] || (rest[0] != q && rest[0] != ',')
    ensures ReadQuotedList(q, Join(QuoteEach(q, names), ",") + rest) == Some((names, rest))
  {
    if |names| == 1 {
      assert Join(QuoteEach(q, names), ",") == Quote(q, names[0]);
      ReadQuotedOfQuote(q, names[0], rest);
      assert [names[0]] == names;
    } else {
      var tail := Join(QuoteEach(q, names[1..]), ",") + rest;
      assert QuoteEach(q, names)[1..] == QuoteEach(q, names[1..]);
      assert Join(QuoteEach(q, names), ",") + rest == Quote(q, names[0]) + ("," + tail);
      ReadQuotedOfQuote(q, names[0], "," + tail);
      assert ("," + tail)[1..] == tail;
      ReadQuotedListOfJoin(q, names[1..], rest);
      assert names == [names[0]] + names[1..];
    }
  }

  predicate IsDigit(c: char) { '0' <= c <= '9' }

  predicate AllDigits(s: string) { forall i :: 0 <= i < |s| ==> IsDigit(s[i]) }

  function DigitChar(d: nat): (c: char)
    requires d < 10
    ensures IsDigit(c) && c as int - '0' as int == d
  {
    ('0' as int + d) as char
  }

  /** Decimal rendering of a non-negative integer, Go's `%d`. */
  function NatToString(n: nat): (s: string)
    ensures |s| > 0 && AllDigits(s)
    ensures |s| > 1 ==> s[0] != '0'
    ensures n < 10 <==> |s| == 1
  {
    if n < 10 then [DigitChar(n)]
    else NatToString(n / 10) + [DigitChar(n % 10)]
  }

  /** The number a string of decimal digits denotes. */
  function DecimalValue(s: string): nat
    requires AllDigits(s)
  {
    if s == [] then 0
    else DecimalValue(s[..|s| - 1]) * 10 + (s[|s| - 1] as int - '0' as int)
  }

  /** `%d` can be read back: the digits denote the number rendered. */
  lemma {:induction false} NatToStringRoundTrip(n: nat)
    ensures DecimalValue(NatToString(n)) == n
  {
    if n >= 10 {
      NatToStringRoundTrip(n / 10);
      var s := NatToString(n);
      assert s[..|s| - 1] == NatToString(n / 10);
    }
  }

  /** A type name with its size argument, `fmt.Sprintf("NAME(%d)", n)`. */
  function SizedType(name: string, n: nat): string
  {
    name + "(" + NatToString(n) + ")"
  }

  /** The size argument of a type rendered as `name(<digits>)`, if `s` has that shape. */
  function ParseSized(name: string, s: string): Option<nat>
  {
    var k := |name|;
    if |s| >= k + 3 && s[..k] == name && s[k] == '(' && s[|s| - 1] == ')'
       && AllDigits(s[k + 1..|s| - 1])
    then Some(DecimalValue(s[k + 1..|s| - 1]))
    else None
  }

  /** The size argument of a sized type reads back. */
  lemma ParseSizedType(name: string, n: nat)
    ensures ParseSized(name, SizedType(name, n)) == Some(n)
  {
    var d := NatToString(n);
    var s := SizedType(name, n);
    var k := |name|;
    assert s == name + "(" + d + ")";
    assert s[..k] == name;
    assert s[k + 1..|s| - 1] == d;
    NatToStringRoundTrip(n);
  }

  /** `strings.Join`: the parts separated by `sep`. */
  function Join(parts: seq<string>, sep: string): string
  {
    if |parts| == 0 then ""
    else if |parts| == 1 then parts[0]
    else parts[0] + sep + Join(parts[1..], sep)
  }

  /** Every part followed by its own terminator `t`. */
  function Terminated(parts: seq<string>, t: string): string
  {
    if parts == [] then "" else parts[0] + t + Terminated(parts[1..], t)
  }

  /** Joining one more part in front adds that part and a separator. */
  lemma JoinCons(p: string, parts: seq<string>, sep: string)
    requires |parts| > 0
    ensures Join([p] + parts, sep) == p + sep + Join(parts, sep)
  {
    assert ([p] + parts)[1..] == parts;
  }

  lemma {:induction false} JoinSnoc(parts: seq<string>, p: string, sep: string)
    requires |parts| > 0
    ensures Join(parts + [p], sep) == Join(parts, sep) + sep + p
  {
    if |parts| > 1 {
      JoinSnoc(parts[1..], p, sep);
      assert (parts + [p])[1..] == parts[1..] + [p];
    } else {
      assert (parts + [p])[1..] == [p];
    }
  }

  /** Joining with `t` and appending one more `t` terminates every part. */
  lemma {:induction false} JoinThenTerminator(parts: seq<string>, t: string)
    requires |parts| > 0
    ensures Join(parts, t) + t == Terminated(parts, t)
  {
    if |parts| > 1 {
      JoinThenTerminator(parts[1..], t);
    } else {
      assert parts[1..] == [];
    }
  }
}
