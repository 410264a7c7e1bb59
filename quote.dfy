/** The quote-feed reader of quote.go: a byte scanner that pulls the
    double-quoted strings out of a feed, takes them alternately as key and
    value, and hands every completed pair to quoteFields, which stores the
    value in the field the key names. Only the six string fields that qPos
    names are modelled (not Other, which nothing writes); the numeric and
    time conversions are an opaque parameter. */
module Quote {
  import opened GoInt
  import opened Finance

  type byte = x: int | 0 <= x < 256

  datatype Option<T> = None | Some(value: T)

  /** The error text of the float or time conversion for the field named by
      the first argument and the text of the second, or None when it
      converts. strconv.ParseFloat and time.Parse are not part of this model. */
  type ConvError = (string, string) -> Option<string>

  /** Go's string(b): one character per byte. */
  function Text(b: seq<byte>): (s: string)
    ensures |s| == |b| && forall i :: 0 <= i < |b| ==> s[i] as int == b[i]
  {
    seq(|b|, i requires 0 <= i < |b| => b[i] as char)
  }

  /** The key table qPos: each key of the feed and the position of its field. */
  const QPos: map<string, int> := map[
    "id" := 0, "t" := 1, "e" := 2, "l" := 3, "l_cur" := 4, "s" := 5,
    "ltt" := 6, "lt" := 7, "c" := 8, "cp" := 9, "ccol" := 10, "el" := 11,
    "el_cur" := 12, "elt" := 13, "ec" := 14, "ecp" := 15, "eccol" := 16,
    "div" := 17, "yld" := 18]

  /** The keys of qPos in the order of their positions. */
  const QKeys: seq<string> := ["id", "t", "e", "l", "l_cur", "s", "ltt", "lt", "c", "cp",
    "ccol", "el", "el_cur", "elt", "ec", "ecp", "eccol", "div", "yld"]

  /** The table has the nineteen keys of the feed, each at its own position
      between 0 and 18 (QKeys lists them by position, so no two keys share
      one), and the string fields are the ones named id, t, e, s, ccol and
      eccol. */
  lemma QPosTable()
    ensures QPos.Keys == {"id", "t", "e", "l", "l_cur", "s", "ltt", "lt", "c", "cp", "ccol",
                          "el", "el_cur", "elt", "ec", "ecp", "eccol", "div", "yld"}
    ensures forall k :: k in QPos ==> 0 <= QPos[k] < |QKeys| && QKeys[QPos[k]] == k
    ensures forall k :: k in QPos ==>
      (IsStringField(QPos[k]) <==> k in {"id", "t", "e", "s", "ccol", "eccol"})
  {
    QPosKeys();
    QPosPositions();
    QPosStringFields();
  }

  lemma QPosKeys()
    ensures QPos.Keys == {"id", "t", "e", "l", "l_cur", "s", "ltt", "lt", "c", "cp", "ccol",
                          "el", "el_cur", "elt", "ec", "ecp", "eccol", "div", "yld"}
  {
  }

  lemma QPosPositions()
    ensures forall k :: k in QPos ==> 0 <= QPos[k] < |QKeys| && QKeys[QPos[k]] == k
  {
  }

  lemma QPosStringFields()
    ensures forall k :: k in QPos ==>
      (IsStringField(QPos[k]) <==> k in {"id", "t", "e", "s", "ccol", "eccol"})
  {
  }

  /** The positions whose fields are strings: id, t, e, s, ccol and eccol. */
  predicate IsStringField(code: int) { code in {0, 1, 2, 5, 10, 16} }

  const NOSYMBOL: string := "no valid symbol loaded list for "

  /** The string fields of a quote that qPos names. */
  datatype Fields = Fields(ID: string, Ticker: string, Exchange: string, S: string, CCOL: string, ECCOL: string)

  /** The string field at a position of qPos. */
  function Field(f: Fields, code: int): string
    requires IsStringField(code)
  {
    if code == 0 then f.ID
    else if code == 1 then f.Ticker
    else if code == 2 then f.Exchange
    else if code == 5 then f.S
    else if code == 10 then f.CCOL
    else f.ECCOL
  }

  /** The fields with the string field at a position of qPos replaced by v. */
  function PutField(f: Fields, code: int, v: string): (g: Fields)
    requires IsStringField(code)
    ensures Field(g, code) == v
    ensures forall c :: IsStringField(c) && c != code ==> Field(g, c) == Field(f, c)
  {
    if code == 0 then f.(ID := v)
    else if code == 1 then f.(Ticker := v)
    else if code == 2 then f.(Exchange := v)
    else if code == 5 then f.(S := v)
    else if code == 10 then f.(CCOL := v)
    else f.(ECCOL := v)
  }

  /** Writing a field twice keeps the second value, and writing back what a
      field holds changes nothing. */
  lemma PutFieldLaws(f: Fields, code: int, v: string, w: string)
    requires IsStringField(code)
    ensures PutField(PutField(f, code, v), code, w) == PutField(f, code, w)
    ensures PutField(f, code, Field(f, code)) == f
  {
  }

  /** The string fields after a step and whether the step panicked. */
  datatype Run = Run(fields: Fields, outcome: Outcome)

  /** What quoteFields does with one pair: nothing for an empty value (a nil
      slice in the source), a panic for a key outside qPos, the value verbatim
      for a string field, and for a numeric or time field a panic when the
      value does not convert (that field's new value is not modelled). */
  function Update(f: Fields, key: seq<byte>, val: seq<byte>, convErr: ConvError): (r: Run)
    ensures r.outcome.Panicked? ==> |val| > 0 && r.fields == f
    ensures r.fields != f ==>
      && |val| > 0 && Text(key) in QPos && IsStringField(QPos[Text(key)])
      && r.fields == PutField(f, QPos[Text(key)], Text(val))
  {
    if |val| == 0 then Run(f, Completed)
    else
      var k, v := Text(key), Text(val);
      if k !in QPos then Run(f, Panicked(NOSYMBOL + k))
      else if IsStringField(QPos[k]) then Run(PutField(f, QPos[k], v), Completed)
      else
        match convErr(k, v)
        case None => Run(f, Completed)
        case Some(e) =>
          Run(f, Panicked(ConvMessage(QPos[k], k, e, v)))
  }

  /** The panic message of a failed conversion: the key and the text, with
      the conversion's own error between them for div and yld. */
  function ConvMessage(code: int, k: string, e: string, v: string): (m: string)
    ensures |UNABLE + k + " "| <= |m| && m[..|UNABLE + k + " "|] == UNABLE + k + " "
    ensures |v| <= |m| && m[|m| - |v|..] == v
    ensures code < 17 ==> |m| == |UNABLE + k + " "| + |v|
  {
    if code >= 17 then UNABLE + k + " " + e + " " + v else UNABLE + k + " " + v
  }

  /** An empty value is ignored whatever the key, even a key outside qPos. */
  lemma UpdateEmptyValue(f: Fields, key: seq<byte>, convErr: ConvError)
    ensures Update(f, key, [], convErr) == Run(f, Completed)
  {
  }

  /** A key outside qPos with a value panics with the key in the message and
      changes nothing. */
  lemma UpdateUnknownKey(f: Fields, key: seq<byte>, val: seq<byte>, convErr: ConvError)
    requires |val| > 0 && Text(key) !in QPos
    ensures Update(f, key, val, convErr) == Run(f, Panicked(NOSYMBOL + Text(key)))
  {
  }

  /** A key naming a string field stores the value verbatim in that field
      and in no other. */
  lemma UpdateStringField(f: Fields, key: seq<byte>, val: seq<byte>, convErr: ConvError)
    requires |val| > 0 && Text(key) in QPos && IsStringField(QPos[Text(key)])
    ensures var r := Update(f, key, val, convErr);
      && r.outcome == Completed
      && Field(r.fields, QPos[Text(key)]) == Text(val)
      && forall c :: IsStringField(c) && c != QPos[Text(key)] ==> Field(r.fields, c) == Field(f, c)
  {
  }

  /** A key naming a numeric or time field leaves every string field as it was. */
  lemma UpdateOtherField(f: Fields, key: seq<byte>, val: seq<byte>, convErr: ConvError)
    requires Text(key) in QPos && !IsStringField(QPos[Text(key)])
    ensures Update(f, key, val, convErr).fields == f
  {
  }

  /** Storing the same pair twice is storing it once. */
  lemma UpdateIdempotent(f: Fields, key: seq<byte>, val: seq<byte>, convErr: ConvError)
    requires Update(f, key, val, convErr).outcome == Completed
    ensures var g := Update(f, key, val, convErr).fields;
      Update(g, key, val, convErr) == Run(g, Completed)
  {
    if |val| > 0 && Text(key) in QPos && IsStringField(QPos[Text(key)]) {
      PutFieldLaws(f, QPos[Text(key)], Text(val), Text(val));
    }
  }

  /** A completed key/value pair of the feed. */
  datatype Pair = Pair(key: seq<byte>, val: seq<byte>)

  /** The pair's key is in qPos and names the field at position c. */
  predicate Names(p: Pair, c: int) { Text(p.key) in QPos && QPos[Text(p.key)] == c }

  /** The pairs applied one after the other; the first panic stops the run.
      A string field that no pair names keeps its value. */
  function ApplyAll(f: Fields, ps: seq<Pair>, convErr: ConvError): (r: Run)
    ensures r.outcome.Panicked? ==> |ps| > 0
    ensures forall c :: IsStringField(c) && (forall i :: 0 <= i < |ps| ==> !Names(ps[i], c)) ==>
      Field(r.fields, c) == Field(f, c)
    decreases |ps|
  {
    if |ps| == 0 then Run(f, Completed)
    else
      var r := Update(f, ps[0].key, ps[0].val, convErr);
      if r.outcome.Panicked? then r else ApplyAll(r.fields, ps[1..], convErr)
  }

  /** Applying xs + ys is applying xs and then, unless that panicked, ys. */
  lemma {:induction false} ApplyAllAppend(f: Fields, xs: seq<Pair>, ys: seq<Pair>, convErr: ConvError)
    ensures ApplyAll(f, xs + ys, convErr) ==
      var r := ApplyAll(f, xs, convErr);
      if r.outcome.Panicked? then r else ApplyAll(r.fields, ys, convErr)
    decreases |xs|
  {
    if |xs| > 0 {
      var r := Update(f, xs[0].key, xs[0].val, convErr);
      assert (xs + ys)[0] == xs[0];
      if !r.outcome.Panicked? {
        assert (xs + ys)[1..] == xs[1..] + ys;
        ApplyAllAppend(r.fields, xs[1..], ys, convErr);
      }
    } else {
      assert xs + ys == ys;
    }
  }

  /** The result of scanning a feed: its completed pairs in order, and
      whether it ends inside a quoted string. */
  datatype Scan = Scan(pairs: seq<Pair>, unterminated: bool)

  function Prepend(ps: seq<Pair>, sc: Scan): Scan
  {
    Scan(ps + sc.pairs, sc.unterminated)
  }

  predicate QuoteFree(s: seq<byte>) { forall i :: 0 <= i < |s| ==> s[i] != DOUBLEQUOTE }

  /** The length of the longest quote-free prefix of s: the index of the
      first '"', or |s| when there is none. */
  function Until(s: seq<byte>): (n: nat)
    ensures n <= |s| && forall i :: 0 <= i < n ==> s[i] != DOUBLEQUOTE
    ensures n < |s| ==> s[n] == DOUBLEQUOTE
  {
    if |s| == 0 || s[0] == DOUBLEQUOTE then 0 else Until(s[1..]) + 1
  }

  /** A quote-free prefix ending at a '"' (or at the end) is the one Until finds. */
  lemma UntilAt(s: seq<byte>, n: nat)
    requires n <= |s| && (forall i :: 0 <= i < n ==> s[i] != DOUBLEQUOTE)
    requires n < |s| ==> s[n] == DOUBLEQUOTE
    ensures Until(s) == n
  {
    var m := Until(s);
  }

  /** The scan of what is left of the feed, s, with a pending key (empty when
      the next quoted string is a key): bytes outside quotes are skipped, a
      quoted string is read up to the next '"' with no escapes, and an empty
      key is no key, so the next quoted string is read as the key again. */
  function ScanFrom(s: seq<byte>, key: seq<byte>): Scan
    decreases |s|
  {
    if |s| == 0 then Scan([], false)
    else if s[0] != DOUBLEQUOTE then ScanFrom(s[1..], key)
    else
      var body := s[1..];
      var n := Until(body);
      if n == |body| then Scan([], true)
      else if |key| == 0 then ScanFrom(body[n + 1..], body[..n])
      else Prepend([Pair(key, body[..n])], ScanFrom(body[n + 1..], []))
  }

  /** The scan of a whole feed: no pair has an empty key, an unterminated
      quote needs a '"' in the feed, and each pair takes at least the two
      quotes of its value. */
  function Tokens(b: seq<byte>): (r: Scan)
    ensures forall i :: 0 <= i < |r.pairs| ==> |r.pairs[i].key| > 0
    ensures r.unterminated ==> !QuoteFree(b)
    ensures 2 * |r.pairs| <= |b|
  {
    ScanShape(b, []);
    ScanFrom(b, [])
  }

  /** What any scan yields: no pair has an empty key (an empty quoted string
      in key position leaves no key pending), an unterminated quote needs a
      '"' in what is left of the feed, and every pair takes at least the two
      quotes of its value from it. */
  lemma {:induction false} ScanShape(s: seq<byte>, key: seq<byte>)
    ensures var r := ScanFrom(s, key);
      && (forall i :: 0 <= i < |r.pairs| ==> |r.pairs[i].key| > 0)
      && (r.unterminated ==> !QuoteFree(s))
      && 2 * |r.pairs| <= |s|
    decreases |s|
  {
    if |s| > 0 {
      var body := s[1..];
      if s[0] != DOUBLEQUOTE {
        ScanShape(body, key);
        if !QuoteFree(body) {
          var i :| 0 <= i < |body| && body[i] == DOUBLEQUOTE;
          assert s[i + 1] == DOUBLEQUOTE;
        }
      } else {
        var n := Until(body);
        if n < |body| {
          if |key| == 0 {
            ScanShape(body[n + 1..], body[..n]);
          } else {
            ScanShape(body[n + 1..], []);
          }
        }
      }
    }
  }

  /** Every key and value read is free of quotes. */
  lemma {:induction false} ScanFromQuoteFree(s: seq<byte>, key: seq<byte>)
    requires QuoteFree(key)
    ensures forall p :: p in ScanFrom(s, key).pairs ==> QuoteFree(p.key) && QuoteFree(p.val)
    decreases |s|
  {
    if |s| > 0 {
      if s[0] != DOUBLEQUOTE {
        ScanFromQuoteFree(s[1..], key);
      } else {
        var body := s[1..];
        var n := Until(body);
        if n < |body| {
          if |key| == 0 {
            ScanFromQuoteFree(body[n + 1..], body[..n]);
          } else {
            ScanFromQuoteFree(body[n + 1..], []);
          }
        }
      }
    }
  }

  lemma TokensQuoteFree(b: seq<byte>)
    ensures forall p :: p in Tokens(b).pairs ==> QuoteFree(p.key) && QuoteFree(p.val)
  {
    ScanFromQuoteFree(b, []);
  }

  /** Bytes outside quoted strings are skipped. */
  lemma {:induction false} SkipUnquoted(p: seq<byte>, s: seq<byte>, key: seq<byte>)
    requires QuoteFree(p)
    ensures ScanFrom(p + s, key) == ScanFrom(s, key)
    decreases |p|
  {
    if |p| > 0 {
      assert (p + s)[0] == p[0] && (p + s)[1..] == p[1..] + s;
      SkipUnquoted(p[1..], s, key);
    } else {
      assert p + s == s;
    }
  }

  /** s between double quotes. */
  function Quoted(s: seq<byte>): seq<byte>
  {
    [DOUBLEQUOTE] + s + [DOUBLEQUOTE]
  }

  const COLON: byte := 58
  const COMMA: byte := 44

  /** A feed holding the pairs as "key":"value", entries. */
  function Render(ps: seq<Pair>): seq<byte>
  {
    if |ps| == 0 then []
    else Quoted(ps[0].key) + [COLON] + Quoted(ps[0].val) + [COMMA] + Render(ps[1..])
  }

  /** Reading the leading quoted string t of Quoted(t) + rest. */
  lemma ReadQuoted(t: seq<byte>, rest: seq<byte>)
    requires QuoteFree(t)
    ensures var s := Quoted(t) + rest;
      |s| > 0 && s[0] == DOUBLEQUOTE && Until(s[1..]) == |t| && s[1..][..|t|] == t && s[1..][|t| + 1..] == rest
  {
    var s := Quoted(t) + rest;
    assert s[1..][..|t|] == t;
    assert s[1..][|t|] == DOUBLEQUOTE;
    UntilAt(s[1..], |t|);
    assert s[1..][|t| + 1..] == rest;
  }

  /** A quoted string read while no key is pending becomes the key. */
  lemma ScanKey(k: seq<byte>, rest: seq<byte>)
    requires QuoteFree(k)
    ensures ScanFrom(Quoted(k) + rest, []) == ScanFrom(rest, k)
  {
    ReadQuoted(k, rest);
  }

  /** A quoted string read while key k is pending completes the pair. */
  lemma ScanValue(k: seq<byte>, v: seq<byte>, rest: seq<byte>)
    requires |k| > 0 && QuoteFree(v)
    ensures ScanFrom(Quoted(v) + rest, k) == Prepend([Pair(k, v)], ScanFrom(rest, []))
  {
    ReadQuoted(v, rest);
  }

  /** One rendered entry "k":"v", yields the pair (k, v). */
  lemma ScanEntry(k: seq<byte>, v: seq<byte>, after: seq<byte>)
    requires |k| > 0 && QuoteFree(k) && QuoteFree(v)
    ensures ScanFrom(Quoted(k) + [COLON] + Quoted(v) + [COMMA] + after, [])
         == Prepend([Pair(k, v)], ScanFrom(after, []))
  {
    var afterVal := [COMMA] + after;
    var afterKey := [COLON] + (Quoted(v) + afterVal);
    assert Quoted(k) + [COLON] + Quoted(v) + [COMMA] + after == Quoted(k) + afterKey;
    ScanKey(k, afterKey);
    SkipUnquoted([COLON], Quoted(v) + afterVal, k);
    ScanValue(k, v, afterVal);
    SkipUnquoted([COMMA], after, []);
  }

  /** Reading back a rendered feed gives its pairs, when keys are non-empty
      and nothing is quoted inside a key or a value. */
  lemma {:induction false} RenderRoundTrip(ps: seq<Pair>, tail: seq<byte>)
    requires forall p :: p in ps ==> |p.key| > 0 && QuoteFree(p.key) && QuoteFree(p.val)
    ensures ScanFrom(Render(ps) + tail, []) == Prepend(ps, ScanFrom(tail, []))
    decreases |ps|
  {
    if |ps| == 0 {
      assert Render(ps) + tail == tail;
    } else {
      var k, v := ps[0].key, ps[0].val;
      assert ps[0] in ps;
      var after := Render(ps[1..]) + tail;
      RenderCons(ps, tail);
      ScanEntry(k, v, after);
      assert forall p :: p in ps[1..] ==> p in ps;
      RenderRoundTrip(ps[1..], tail);
      PrependPrepend([Pair(k, v)], ps[1..], ScanFrom(tail, []));
      assert [Pair(k, v)] + ps[1..] == ps;
    }
  }

  lemma RenderCons(ps: seq<Pair>, tail: seq<byte>)
    requires |ps| > 0
    ensures Render(ps) + tail ==
      Quoted(ps[0].key) + [COLON] + Quoted(ps[0].val) + [COMMA] + (Render(ps[1..]) + tail)
  {
    var e := Quoted(ps[0].key) + [COLON] + Quoted(ps[0].val) + [COMMA];
    AppendAssoc(e, Render(ps[1..]), tail);
  }

  lemma AppendAssoc(a: seq<byte>, b: seq<byte>, c: seq<byte>)
    ensures a + b + c == a + (b + c)
  {
  }

  lemma TokensRender(ps: seq<Pair>)
    requires forall p :: p in ps ==> |p.key| > 0 && QuoteFree(p.key) && QuoteFree(p.val)
    ensures Tokens(Render(ps)) == Scan(ps, false)
  {
    RenderRoundTrip(ps, []);
    assert Render(ps) + [] == Render(ps);
  }

  /** A quote opened for a key and never closed ends the scan as unterminated,
      after the pairs before it. */
  lemma UnterminatedKey(ps: seq<Pair>, t: seq<byte>)
    requires forall p :: p in ps ==> |p.key| > 0 && QuoteFree(p.key) && QuoteFree(p.val)
    requires QuoteFree(t)
    ensures Tokens(Render(ps) + [DOUBLEQUOTE] + t) == Scan(ps, true)
  {
    var s := [DOUBLEQUOTE] + t;
    RenderRoundTrip(ps, s);
    AppendAssoc(Render(ps), [DOUBLEQUOTE], t);
    assert s[1..] == t;
    UntilAt(t, |t|);
  }

  /** A quote opened for a value and never closed ends the scan as
      unterminated, after the pairs before it: the pending key is dropped. */
  lemma UnterminatedValue(ps: seq<Pair>, k: seq<byte>, t: seq<byte>)
    requires forall p :: p in ps ==> |p.key| > 0 && QuoteFree(p.key) && QuoteFree(p.val)
    requires |k| > 0 && QuoteFree(k) && QuoteFree(t)
    ensures Tokens(Render(ps) + Quoted(k) + [COLON, DOUBLEQUOTE] + t) == Scan(ps, true)
  {
    var open := [DOUBLEQUOTE] + t;
    var s := Quoted(k) + ([COLON] + open);
    RenderRoundTrip(ps, s);
    var r, q := Render(ps), Quoted(k);
    assert [COLON, DOUBLEQUOTE] + t == [COLON] + open;
    AppendAssoc(r + q, [COLON, DOUBLEQUOTE], t);
    AppendAssoc(r, q, [COLON] + open);
    ScanKey(k, [COLON] + open);
    SkipUnquoted([COLON], open, k);
    assert open[1..] == t;
    UntilAt(t, |t|);
  }

  /** A key with no value at the end of the feed is dropped without a panic. */
  lemma TrailingKeyDropped(ps: seq<Pair>, k: seq<byte>)
    requires forall p :: p in ps ==> |p.key| > 0 && QuoteFree(p.key) && QuoteFree(p.val)
    requires QuoteFree(k)
    ensures Tokens(Render(ps) + Quoted(k)) == Scan(ps, false)
  {
    RenderRoundTrip(ps, Quoted(k));
    ScanKey(k, []);
    assert Quoted(k) + [] == Quoted(k);
  }

  /** An empty quoted string in key position is skipped: the next quoted
      string is read as the key. */
  lemma EmptyKeySkipped(s: seq<byte>)
    ensures ScanFrom(Quoted([]) + s, []) == ScanFrom(s, [])
  {
    ScanKey([], s);
  }

  /** An empty quoted string in value position completes the pair with an
      empty value, which consumes the pending key and changes no field. */
  lemma EmptyValueConsumesKey(f: Fields, k: seq<byte>, s: seq<byte>, convErr: ConvError)
    requires |k| > 0
    ensures ScanFrom(Quoted([]) + s, k) == Prepend([Pair(k, [])], ScanFrom(s, []))
    ensures ApplyAll(f, [Pair(k, [])], convErr) == Run(f, Completed)
  {
    ScanValue(k, [], s);
    assert [Pair(k, [])][1..] == [];
  }

  /** The string fields of a quote after a run over a feed, and its result:
      the first panic of quoteFields, or else BADQUOTE for an unterminated
      quote, or else success. */
  function ParseResult(sc: Scan, run: Run, q: Quote): Result<Quote>
  {
    if run.outcome.Panicked? then Panic(run.outcome.msg)
    else if sc.unterminated then Panic(BADQUOTE)
    else Ok(q)
  }

  class Quote {
    var ID: string
    var Ticker: string
    var Exchange: string
    var S: string
    var CCOL: string
    var ECCOL: string

    /** Go's zero value: every string empty. */
    constructor ()
      ensures Snapshot() == Fields("", "", "", "", "", "")
    {
      ID, Ticker, Exchange, S, CCOL, ECCOL := "", "", "", "", "", "";
    }

    /** The string fields as a value. */
    function Snapshot(): Fields
      reads this
    {
      Fields(ID, Ticker, Exchange, S, CCOL, ECCOL)
    }

    /** quoteFields: stores one pair as Update describes and returns the
        receiver, or panics. */
    method QuoteFields(bKey: seq<byte>, bVal: seq<byte>, convErr: ConvError) returns (res: Result<Quote>)
      modifies this
      ensures var r := Update(old(Snapshot()), bKey, bVal, convErr);
        Snapshot() == r.fields &&
        res == (if r.outcome.Panicked? then Panic(r.outcome.msg) else Ok(this))
    {
      if |bVal| == 0 {
        return Ok(this);
      }
      var bStr := Text(bKey);
      if bStr !in QPos {
        return Panic(NOSYMBOL + bStr);
      }
      var v := QPos[bStr];
      var val := Text(bVal);
      if v == 0 {
        ID := val;
      } else if v == 1 {
        Ticker := val;
      } else if v == 2 {
        Exchange := val;
      } else if v == 5 {
        S := val;
      } else if v == 10 {
        CCOL := val;
      } else if v == 16 {
        ECCOL := val;
      } else {
        match convErr(bStr, val)
        case Some(e) =>
          if v >= 17 {
            return Panic(UNABLE + bStr + " " + e + " " + val);
          }
          return Panic(UNABLE + bStr + " " + val);
        case None =>
      }
      return Ok(this);
    }

    /** parseQuote: scans the feed b, storing every completed pair in the
        order it is read. */
    method ParseQuote(b: seq<byte>, convErr: ConvError) returns (res: Result<Quote>)
      modifies this
      ensures var sc := Tokens(b);
        var run := ApplyAll(old(Snapshot()), sc.pairs, convErr);
        Snapshot() == run.fields && res == ParseResult(sc, run, this)
    {
      var bKey: seq<byte> := [];
      var bVal: seq<byte> := [];
      var pos := 0;
      ghost var done: seq<Pair> := [];
      assert done + [] == done;
      while pos < |b|
        invariant 0 <= pos <= |b| && bVal == []
        invariant Tokens(b) == Prepend(done, ScanFrom(b[pos..], bKey))
        invariant ApplyAll(old(Snapshot()), done, convErr) == Run(Snapshot(), Completed)
        decreases |b| - pos
      {
        if b[pos] == DOUBLEQUOTE {
          if |bKey| == 0 {
            var closed;
            bKey, pos, closed := ReadToken(b, pos, bKey);
            if !closed {
              assert done + [] == done;
              return Panic(BADQUOTE);
            }
          } else if bVal == [] {
            var r;
            r, pos, done := StoreValue(b, pos, bKey, convErr, old(Snapshot()), done);
            if r.Panic? {
              return r;
            }
            bKey := [];
          }
        } else {
          ScanSkip(b, pos, bKey);
        }
        pos := pos + 1;
      }
      assert b[pos..] == [];
      assert done + [] == done;
      return Ok(this);
    }

    /** The value branch of parseQuote's loop, a method of the quote: reads
        the value opened at b[start] for the pending key bKey, stores the pair
        with quoteFields; the loop then clears the key. f0 holds the fields before the
        feed and done the pairs stored so far. On a panic (an unterminated
        value, or one quoteFields refuses) the parse ends with that result;
        otherwise the pair is one more stored. */
    method StoreValue(b: seq<byte>, start: int, bKey: seq<byte>, convErr: ConvError, ghost f0: Fields, ghost done: seq<Pair>)
      returns (res: Result<Quote>, pos: int, ghost done': seq<Pair>)
      requires 0 <= start < |b| && b[start] == DOUBLEQUOTE && |bKey| > 0
      requires ApplyAll(f0, done, convErr) == Run(Snapshot(), Completed)
      modifies this
      ensures res.Ok? ==> res == Ok(this) && start < pos < |b|
      ensures res.Ok? ==> Prepend(done, ScanFrom(b[start..], bKey)) == Prepend(done', ScanFrom(b[pos + 1..], []))
      ensures res.Ok? ==> ApplyAll(f0, done', convErr) == Run(Snapshot(), Completed)
      ensures res.Panic? ==> var sc := Prepend(done, ScanFrom(b[start..], bKey));
        var run := ApplyAll(f0, sc.pairs, convErr);
        Snapshot() == run.fields && res == ParseResult(sc, run, this)
    {
      var bVal, closed;
      bVal, pos, closed := ReadToken(b, start, bKey);
      if !closed {
        assert done + [] == done;
        return Panic(BADQUOTE), pos, done;
      }
      ghost var pair := Pair(bKey, bVal);
      ghost var rest := ScanFrom(b[pos + 1..], []);
      res := QuoteFields(bKey, bVal, convErr);
      ApplySnoc(f0, done, pair, convErr);
      PrependPrepend(done, [pair], rest);
      if res.Panic? {
        ApplyPanicStops(f0, done + [pair], rest.pairs, convErr);
      }
      done' := done + [pair];
    }
  }

  /** The inner loop of parseQuote, the same for a key and for a value: from
      the opening '"' at b[start], collects the bytes up to the closing '"'.
      It reports closed = false where the source panics with BADQUOTE, having
      reached the end of the feed. For a key (none pending) the scan goes on
      with the token as the pending key; for a value it goes on after the
      completed pair. */
  method ReadToken(b: seq<byte>, start: int, key: seq<byte>) returns (tok: seq<byte>, pos: int, closed: bool)
    requires 0 <= start < |b| && b[start] == DOUBLEQUOTE
    ensures closed ==> start < pos < |b| && b[pos] == DOUBLEQUOTE && tok == b[start + 1..pos]
    ensures closed && |key| == 0 ==> ScanFrom(b[start..], key) == ScanFrom(b[pos + 1..], tok)
    ensures closed && |key| > 0 ==>
      ScanFrom(b[start..], key) == Prepend([Pair(key, tok)], ScanFrom(b[pos + 1..], []))
    ensures !closed ==> ScanFrom(b[start..], key) == Scan([], true)
  {
    tok := [];
    pos := start + 1;
    if pos == |b| {
      ScanOpen(b, start, key);
      return tok, pos, false;
    }
    while b[pos] != DOUBLEQUOTE
      invariant start < pos < |b| && tok == b[start + 1..pos]
      invariant forall i :: start < i < pos ==> b[i] != DOUBLEQUOTE
      decreases |b| - pos
    {
      tok := tok + [b[pos]];
      pos := pos + 1;
      if pos == |b| {
        ScanOpen(b, start, key);
        return tok, pos, false;
      }
    }
    ScanToken(b, start, pos, key);
    return tok, pos, true;
  }

  /** Skipping a byte outside quotes. */
  lemma ScanSkip(b: seq<byte>, pos: int, key: seq<byte>)
    requires 0 <= pos < |b| && b[pos] != DOUBLEQUOTE
    ensures ScanFrom(b[pos..], key) == ScanFrom(b[pos + 1..], key)
  {
    assert b[pos..][1..] == b[pos + 1..];
  }

  /** The quoted string from b[start] to b[end]: the key while none is
      pending, and otherwise the value completing a pair. */
  lemma ScanToken(b: seq<byte>, start: int, end: int, key: seq<byte>)
    requires 0 <= start < end < |b| && b[start] == DOUBLEQUOTE && b[end] == DOUBLEQUOTE
    requires forall i :: start < i < end ==> b[i] != DOUBLEQUOTE
    ensures ScanFrom(b[start..], key) ==
      if |key| == 0 then ScanFrom(b[end + 1..], b[start + 1..end])
      else Prepend([Pair(key, b[start + 1..end])], ScanFrom(b[end + 1..], []))
  {
    var body := b[start..][1..];
    assert body == b[start + 1..];
    UntilAt(body, end - start - 1);
    assert body[..end - start - 1] == b[start + 1..end];
    assert body[end - start..] == b[end + 1..];
  }

  /** A quote opened at b[start] and never closed. */
  lemma ScanOpen(b: seq<byte>, start: int, key: seq<byte>)
    requires 0 <= start < |b| && b[start] == DOUBLEQUOTE
    requires forall i :: start < i < |b| ==> b[i] != DOUBLEQUOTE
    ensures ScanFrom(b[start..], key) == Scan([], true)
  {
    var body := b[start..][1..];
    assert body == b[start + 1..];
    UntilAt(body, |body|);
  }

  lemma PrependPrepend(xs: seq<Pair>, ys: seq<Pair>, sc: Scan)
    ensures Prepend(xs, Prepend(ys, sc)) == Prepend(xs + ys, sc)
  {
    assert xs + (ys + sc.pairs) == xs + ys + sc.pairs;
  }

  /** Storing one more pair after the pairs done so far. */
  lemma ApplySnoc(f: Fields, done: seq<Pair>, p: Pair, convErr: ConvError)
    ensures ApplyAll(f, done + [p], convErr) ==
      var r := ApplyAll(f, done, convErr);
      if r.outcome.Panicked? then r else Update(r.fields, p.key, p.val, convErr)
  {
    ApplyAllAppend(f, done, [p], convErr);
    assert [p][1..] == [];
  }

  /** A panic ends the whole run there, whatever follows. */
  lemma ApplyPanicStops(f: Fields, xs: seq<Pair>, rest: seq<Pair>, convErr: ConvError)
    requires ApplyAll(f, xs, convErr).outcome.Panicked?
    ensures ApplyAll(f, xs + rest, convErr) == ApplyAll(f, xs, convErr)
  {
    ApplyAllAppend(f, xs, rest, convErr);
  }
}
