/** The wire format of the lock server (msgPrepare and decodeMessage in threads/system.cc): words and
    numbers separated by blanks, as C++ streams write and read them. */
module Messages {
  import opened Sequences
  import opened Bytes

  const MAX_MAIL_SIZE := 40

  datatype Message = Message(
    request: string, name: string, name2: string,
    index: int32, index2: int32, index3: int32,
    id: int32, clientMachine: int32, clientMailbox: int32)

  predicate IsSpace(c: char) {
    c == ' ' || c == '\t' || c == '\n' || c == '\r' || c == 11 as char || c == 12 as char
  }

  predicate IsDigit(c: char) {
    '0' <= c <= '9'
  }

  // ----- writing -----

  function ShowNat(n: nat): (s: string)
    ensures |s| > 0 && IsDigit(s[0])
  {
    if n < 10 then [(n + '0' as int) as char] else ShowNat(n / 10) + [(n % 10 + '0' as int) as char]
  }

  function ShowInt(x: int32): string {
    if x < 0 then "-" + ShowNat(-(x as int)) else ShowNat(x)
  }

  function ShowInts(xs: seq<int32>): (s: string)
    ensures Ends(s)
  {
    if xs == [] then "" else " " + (ShowInt(xs[0]) + ShowInts(xs[1..]))
  }

  predicate Ends(s: string) {
    s == "" || s[0] == ' '
  }

  function Numbers(m: Message): seq<int32> {
    [m.index, m.index2, m.index3, m.id, m.clientMachine, m.clientMailbox]
  }

  /** The text of a message: three words and six numbers, with a blank in front of all but the first. */
  function Text(m: Message): string {
    m.request + (" " + (m.name + (" " + (m.name2 + ShowInts(Numbers(m))))))
  }

  function Pow10(k: nat): (r: nat)
    ensures r > 0
  {
    if k == 0 then 1 else 10 * Pow10(k - 1)
  }

  /** Numbers are written in decimal, without leading zeros. */
  lemma {:induction false} Decimal(n: nat, k: nat)
    ensures var s := ShowNat(n);
            && Pow10(|s| - 1) <= (if n == 0 then 1 else n) && n < Pow10(|s|)
            && (k < |s| ==> s[|s| - 1 - k] as int == '0' as int + n / Pow10(k) % 10)
    decreases n
  {
    if n >= 10 {
      Decimal(n / 10, if k == 0 then 0 else k - 1);
      if k > 0 {
        DivTen(n, Pow10(k - 1));
      }
    }
  }

  lemma DivTen(n: nat, p: nat)
    requires p > 0
    ensures n / 10 / p == n / (10 * p)
  {
    var q, r := n / 10 / p, n / 10 % p;
    assert n / 10 == p * q + r;
    assert n == 10 * p * q + (10 * r + n % 10);
    Quotient(n, 10 * p, q, 10 * r + n % 10);
  }

  lemma Quotient(x: nat, p: nat, q: nat, r: nat)
    requires p > 0 && x == p * q + r && r < p
    ensures x / p == q
  {
    Below(p, x / p, q);
    Below(p, q, x / p);
    assert x == p * (x / p) + x % p;
  }

  lemma Below(p: nat, k: nat, q: nat)
    ensures k < q ==> p * k + p <= p * q
  {
    if k < q {
      AtLeast(p, q - k);
      assert p * q == p * k + p * (q - k);
    }
  }

  lemma {:induction false} AtLeast(p: nat, m: nat)
    requires m >= 1
    ensures p * m >= p
    decreases m
  {
    if m > 1 {
      AtLeast(p, m - 1);
      assert p * m == p * (m - 1) + p;
    }
  }

  /** White space is what isspace says it is: blank, tab, newline, and the three controls behind it. */
  lemma SpacesAre(c: char)
    ensures IsSpace(c) <==> c as int == 32 || 9 <= c as int <= 13
  {
  }

  // ----- reading: what is read, and what is left of the stream -----

  function SkipSpaces(s: string): string {
    if s != [] && IsSpace(s[0]) then SkipSpaces(s[1..]) else s
  }

  function TakeWord(s: string): (r: (string, string))
    ensures s == r.0 + r.1
    ensures forall i :: 0 <= i < |r.0| ==> !IsSpace(r.0[i])
  {
    if s == [] || IsSpace(s[0]) then ("", s)
    else
      var (word, rest) := TakeWord(s[1..]);
      ([s[0]] + word, rest)
  }

  /** Reading a word fails at the end of the stream. */
  function ReadWord(s: string): Option<(string, string)> {
    var (word, rest) := TakeWord(SkipSpaces(s));
    if word == "" then None else Some((word, rest))
  }

  function TakeDigits(s: string, value: nat): (nat, string) {
    if s == [] || !IsDigit(s[0]) then (value, s) else TakeDigits(s[1..], value * 10 + (s[0] as int - '0' as int))
  }

  /** Reading a number fails if there is no digit, or if it does not fit. */
  function ReadInt(s: string): Option<(int32, string)> {
    var t := SkipSpaces(s);
    var negative := t != [] && t[0] == '-';
    var digits := if t != [] && (t[0] == '-' || t[0] == '+') then t[1..] else t;
    if digits == [] || !IsDigit(digits[0]) then None
    else
      var (value, rest) := TakeDigits(digits, 0);
      var x := if negative then -(value as int) else value;
      if -0x8000_0000 <= x < 0x8000_0000 then Some((x, rest)) else None
  }

  /** A stream from which fields are taken: what is left of it, or None once a field could not be read, and
      the fields read so far. After a failure nothing more is read, and the fields behind stay unset. */
  datatype Stream = Stream(rest: Option<string>, words: seq<string>, numbers: seq<int32>)

  function ExtractWord(p: Stream): Stream {
    match p.rest
    case None => p
    case Some(s) =>
      match ReadWord(s)
      case None => p.(rest := None)
      case Some((word, rest)) => p.(rest := Some(rest), words := p.words + [word])
  }

  function ExtractInt(p: Stream): Stream {
    match p.rest
    case None => p
    case Some(s) =>
      match ReadInt(s)
      case None => p.(rest := None)
      case Some((x, rest)) => p.(rest := Some(rest), numbers := p.numbers + [x])
  }

  function ExtractWords(p: Stream, n: nat): Stream
    decreases n
  {
    if n == 0 then p else ExtractWords(ExtractWord(p), n - 1)
  }

  function ExtractInts(p: Stream, n: nat): Stream
    decreases n
  {
    if n == 0 then p else ExtractInts(ExtractInt(p), n - 1)
  }

  /** What is read of a text: three words, then six numbers, as far as that goes. */
  function Decoded(s: string): Stream {
    ExtractInts(ExtractWords(Stream(Some(s), [], []), 3), 6)
  }

  // ----- reading what was written -----

  /** A word that a stream reads back as it was written. */
  predicate IsWord(s: string) {
    s != "" && forall i :: 0 <= i < |s| ==> !IsSpace(s[i])
  }

  lemma {:induction false} TakeWordBack(w: string, rest: string)
    requires (forall i :: 0 <= i < |w| ==> !IsSpace(w[i])) && Ends(rest)
    ensures TakeWord(w + rest) == (w, rest)
  {
    if w == "" {
      assert w + rest == rest;
    } else {
      assert (w + rest)[1..] == w[1..] + rest && (w + rest)[0] == w[0] && [w[0]] + w[1..] == w;
      TakeWordBack(w[1..], rest);
    }
  }

  lemma ReadWordBack(w: string, rest: string)
    requires IsWord(w) && Ends(rest)
    ensures ReadWord(w + rest) == Some((w, rest))
    ensures ReadWord(" " + (w + rest)) == Some((w, rest))
  {
    assert (w + rest)[0] == w[0];
    assert (" " + (w + rest))[1..] == w + rest;
    TakeWordBack(w, rest);
  }

  lemma {:induction false} TakeDigitsBack(n: nat, rest: string)
    ensures TakeDigits(ShowNat(n) + rest, 0) == TakeDigits(rest, n)
    ensures Ends(rest) ==> TakeDigits(ShowNat(n) + rest, 0) == (n, rest)
    decreases n
  {
    var last := [(n % 10 + '0' as int) as char];
    assert (last + rest)[1..] == rest;
    if n >= 10 {
      assert ShowNat(n) + rest == ShowNat(n / 10) + (last + rest);
      TakeDigitsBack(n / 10, last + rest);
    }
  }

  /** Every number reads back, the most negative one included. */
  lemma ReadIntBack(x: int32, rest: string)
    requires Ends(rest)
    ensures ReadInt(" " + (ShowInt(x) + rest)) == Some((x, rest))
  {
    hide TakeDigits, ShowNat;
    var s := ShowInt(x) + rest;
    assert s[0] == ShowInt(x)[0];
    assert (" " + s)[1..] == s && SkipSpaces(" " + s) == s;
    if x < 0 {
      assert s[1..] == ShowNat(-(x as int)) + rest;
      TakeDigitsBack(-(x as int), rest);
    } else {
      TakeDigitsBack(x, rest);
    }
  }

  /** A number may have a sign in front of it, and is read if it fits in 32 bits; otherwise, and without a
      digit, reading fails. */
  lemma ReadIntSigned(n: nat, sign: string, rest: string)
    requires sign in {"", "+", "-"} && Ends(rest)
    ensures var x := if sign == "-" then -(n as int) else n;
            ReadInt(sign + (ShowNat(n) + rest))
            == if -0x8000_0000 <= x < 0x8000_0000 then Some((x, rest)) else None
  {
    hide TakeDigits, ShowNat;
    var t := ShowNat(n) + rest;
    TakeDigitsBack(n, rest);
    assert t[0] == ShowNat(n)[0];
    if sign == "" {
      assert sign + t == t;
    } else {
      assert (sign + t)[1..] == t && (sign + t)[0] == sign[0];
    }
  }

  lemma NoDigitNoNumber(s: string)
    requires s == "" || (!IsSpace(s[0]) && !IsDigit(s[0]) && s[0] != '-' && s[0] != '+')
    ensures ReadInt(s) == None
  {
  }

  lemma {:induction false} ExtractIntsBack(p: Stream, xs: seq<int32>)
    requires p.rest == Some(ShowInts(xs))
    ensures ExtractInts(p, |xs|) == Stream(Some(""), p.words, p.numbers + xs)
    decreases |xs|
  {
    hide ReadInt, ShowInt;
    if xs != [] {
      StartsWithBlank(xs[1..]);
      ReadIntBack(xs[0], ShowInts(xs[1..]));
      ExtractIntsBack(ExtractInt(p), xs[1..]);
      assert p.numbers + [xs[0]] + xs[1..] == p.numbers + xs;
    }
  }

  lemma WordsAreWords(s: string)
    ensures ReadWord(s).Some? ==> IsWord(ReadWord(s).value.0)
  {
  }

  lemma {:induction false} ExtractedWords(p: Stream, n: nat)
    requires forall w :: w in p.words ==> IsWord(w)
    ensures forall w :: w in ExtractWords(p, n).words ==> IsWord(w)
    ensures |ExtractWords(p, n).words| <= |p.words| + n
    ensures if p.rest == None then ExtractWords(p, n) == p
            else ExtractWords(p, n).rest.Some? <==> |ExtractWords(p, n).words| == |p.words| + n
    ensures ExtractWords(p, n).numbers == p.numbers
    decreases n
  {
    if n > 0 {
      if p.rest.Some? {
        WordsAreWords(p.rest.value);
      }
      ExtractedWords(ExtractWord(p), n - 1);
    }
  }

  lemma {:induction false} ExtractedInts(p: Stream, n: nat)
    ensures ExtractInts(p, n).words == p.words
    ensures |ExtractInts(p, n).numbers| <= |p.numbers| + n
    ensures if p.rest == None then ExtractInts(p, n) == p
            else ExtractInts(p, n).rest.Some? <==> |ExtractInts(p, n).numbers| == |p.numbers| + n
    decreases n
  {
    if n > 0 {
      ExtractedInts(ExtractInt(p), n - 1);
    }
  }

  /** Decoding undoes preparing exactly for the messages whose words are not empty and contain no
      white space, whatever their numbers. */
  lemma RoundTrip(m: Message)
    ensures && Decoded(Text(m)).words == [m.request, m.name, m.name2]
            && Decoded(Text(m)).numbers == [m.index, m.index2, m.index3, m.id, m.clientMachine, m.clientMailbox]
       <==> IsWord(m.request) && IsWord(m.name) && IsWord(m.name2)
  {
    hide ReadWord, ShowInts, ExtractInts;
    var s3 := ShowInts(Numbers(m));
    var s2, s1 := " " + (m.name2 + s3), " " + (m.name + (" " + (m.name2 + s3)));
    var p := Stream(Some(Text(m)), [], []);
    if IsWord(m.request) && IsWord(m.name) && IsWord(m.name2) {
      ReadWordBack(m.request, s1);
      ReadWordBack(m.name, s2);
      StartsWithBlank(Numbers(m));
      ReadWordBack(m.name2, s3);
      assert ExtractWords(p, 3) == Stream(Some(s3), [m.request, m.name, m.name2], []);
      ExtractIntsBack(ExtractWords(p, 3), Numbers(m));
    } else {
      DecodedWords(Text(m));
      assert [m.request, m.name, m.name2][0] == m.request;
      assert [m.request, m.name, m.name2][1] == m.name;
      assert [m.request, m.name, m.name2][2] == m.name2;
    }
  }

  lemma StartsWithBlank(xs: seq<int32>)
    ensures Ends(ShowInts(xs))
  {
  }

  /** Whatever is read, its words are words, and no field is read behind one that cannot be. */
  lemma DecodedWords(s: string)
    ensures var p := Decoded(s);
            && (forall i :: 0 <= i < |p.words| ==> IsWord(p.words[i]))
            && |p.words| <= 3 && |p.numbers| <= 6
            && (|p.words| < 3 ==> p.numbers == [])
            && (p.rest.Some? <==> |p.words| == 3 && |p.numbers| == 6)
  {
    var p := Stream(Some(s), [], []);
    ExtractedWords(p, 3);
    ExtractedInts(ExtractWords(p, 3), 6);
  }

  // ----- the code -----

  /** Puts characters into the stream; `rest` is what is still to come. */
  method Put(d: string, x: string, ghost rest: string) returns (r: string)
    ensures r == d + x
    ensures r + rest == d + (x + rest)
  {
    r := d + x;
  }

  /** The buffer has room for MAX_MAIL_SIZE characters, the terminator included. */
  method MsgPrepare(m: Message) returns (d: string)
    requires |m.request| == 2 && |Text(m)| < MAX_MAIL_SIZE
    ensures d == Text(m)
    ensures d == m.request + " " + m.name + " " + m.name2 + " " + ShowInt(m.index) + " " + ShowInt(m.index2)
                 + " " + ShowInt(m.index3) + " " + ShowInt(m.id) + " " + ShowInt(m.clientMachine)
                 + " " + ShowInt(m.clientMailbox)
  {
    hide ShowInt, ShowInts;
    ghost var xs := Numbers(m);
    ghost var n := ShowInts(xs);
    d := [m.request[0]];
    d := d + [m.request[1]];
    assert d == m.request;
    d := Put(d, " ", m.name + (" " + (m.name2 + n)));
    d := Put(d, m.name, " " + (m.name2 + n));
    d := Put(d, " ", m.name2 + n);
    d := Put(d, m.name2, n);
    d := PutInts(d, m);
  }

  method PutInts(d: string, m: Message) returns (r: string)
    ensures r == d + ShowInts(Numbers(m))
    ensures r == d + " " + ShowInt(m.index) + " " + ShowInt(m.index2) + " " + ShowInt(m.index3) + " " + ShowInt(m.id)
                 + " " + ShowInt(m.clientMachine) + " " + ShowInt(m.clientMailbox)
  {
    ghost var xs := Numbers(m);
    r := PutInt(d, m.index, xs[1..]);
    r := PutInt(r, m.index2, xs[2..]);
    r := PutInt(r, m.index3, xs[3..]);
    r := PutInt(r, m.id, xs[4..]);
    r := PutInt(r, m.clientMachine, xs[5..]);
    r := PutInt(r, m.clientMailbox, xs[6..]);
  }

  /** A blank and a number; `rest` is what is still to come. */
  method PutInt(d: string, x: int32, ghost rest: seq<int32>) returns (r: string)
    ensures r + ShowInts(rest) == d + ShowInts([x] + rest)
    ensures r == d + " " + ShowInt(x)
  {
    r := Put(d, " ", ShowInt(x) + ShowInts(rest));
    r := Put(r, ShowInt(x), ShowInts(rest));
    assert ([x] + rest)[1..] == rest;
  }

  /** Takes the fields off the stream one by one. */
  method DecodeMessage(buf: string) returns (message: Stream)
    ensures message == Decoded(buf)
    ensures forall i :: 0 <= i < |message.words| ==> IsWord(message.words[i])
    ensures |message.words| <= 3 && |message.numbers| <= 6 && (|message.words| < 3 ==> message.numbers == [])
    ensures message.rest.Some? <==> |message.words| == 3 && |message.numbers| == 6
  {
    hide ExtractWord, ExtractInt;
    DecodedWords(buf);
    var ss := Stream(Some(buf), [], []);
    ss := ExtractWord(ss);
    ss := ExtractWord(ss);
    ss := ExtractWord(ss);
    assert ss == ExtractWords(Stream(Some(buf), [], []), 3);
    ss := ExtractInt(ss);
    ss := ExtractInt(ss);
    ss := ExtractInt(ss);
    ss := ExtractInt(ss);
    ss := ExtractInt(ss);
    message := ExtractInt(ss);
  }
}
