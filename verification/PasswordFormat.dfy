// The stored password string of backend/core/passwords.py: scrypt$N$r$p$salt$key, the two byte
// strings in unpadded URL-safe base64 (RFC 4648, sections 5 and 3.2). The key derivation itself
// is a parameter.
module PasswordFormat {
  import opened Options

  const SCHEME := "scrypt"
  const SCRYPT_N := 32768
  const SCRYPT_R := 8
  const SCRYPT_P := 1
  const KEY_BYTES := 32
  const MAX_N := 1048576
  const MAX_R := 32
  const MAX_P := 16

  type Byte = b: int | 0 <= b < 256
  type Sextet = v: int | 0 <= v < 64

  // ---- base64 ----

  function Letter(v: Sextet): char {
    if v < 26 then 'A' + (v as char)
    else if v < 52 then 'a' + ((v - 26) as char)
    else if v < 62 then '0' + ((v - 52) as char)
    else if v == 62 then '-' else '_'
  }

  function Sixth(c: char): Option<Sextet> {
    if 'A' <= c <= 'Z' then Some((c - 'A') as int)
    else if 'a' <= c <= 'z' then Some((c - 'a') as int + 26)
    else if '0' <= c <= '9' then Some((c - '0') as int + 52)
    else if c == '-' then Some(62) else if c == '_' then Some(63) else None
  }

  // Three bytes as four letters.
  function Letters(a: Byte, b: Byte, c: Byte): string {
    [Letter(a / 4), Letter(a % 4 * 16 + b / 16), Letter(b % 16 * 4 + c / 64), Letter(c % 64)]
  }

  // With padding, as the library writes it.
  function Encode(raw: seq<Byte>): string {
    if raw == [] then ""
    else if |raw| == 1 then Letters(raw[0], 0, 0)[..2] + "=="
    else if |raw| == 2 then Letters(raw[0], raw[1], 0)[..3] + "="
    else Letters(raw[0], raw[1], raw[2]) + Encode(raw[3..])
  }

  function StripPadding(s: string): string {
    if s != "" && s[|s| - 1] == '=' then StripPadding(s[..|s| - 1]) else s
  }

  function B64(raw: seq<Byte>): string {
    StripPadding(Encode(raw))
  }

  // Four letters back to their bytes; None for a letter outside the alphabet.
  function Group(s: string): Option<seq<Byte>>
    requires |s| == 4
  {
    var v, w := Sixth(s[0]), Sixth(s[1]);
    if v.None? || w.None? then None
    else
      var first := v.value * 4 + w.value / 16;
      if s[2..] == "==" then Some([first])
      else
        var x := Sixth(s[2]);
        if x.None? then None
        else
          var second := w.value % 16 * 16 + x.value / 4;
          if s[3] == '=' then Some([first, second])
          else
            var y := Sixth(s[3]);
            if y.None? then None else Some([first, second, x.value % 4 * 64 + y.value])
  }

  function Decode(s: string): Option<seq<Byte>> {
    if s == "" then Some([])
    else if |s| < 4 then None
    else
      var head, rest := Group(s[..4]), Decode(s[4..]);
      if head.None? || rest.None? || (|head.value| < 3 && |s| > 4) then None else Some(head.value + rest.value)
  }

  function Padding(n: nat): string {
    match n % 4
    case 0 => ""
    case 1 => "==="
    case 2 => "=="
    case _ => "="
  }

  function Unb64(text: string): Option<seq<Byte>> {
    Decode(text + Padding(|text|))
  }

  // ---- numbers ----

  function Digits(n: nat): string {
    if n < 10 then ['0' + (n as char)] else Digits(n / 10) + ['0' + ((n % 10) as char)]
  }

  function ParseDigits(s: string): Option<nat> {
    if s == "" then None
    else
      var c := s[|s| - 1];
      if !('0' <= c <= '9') then None
      else if |s| == 1 then Some((c - '0') as int)
      else
        var high := ParseDigits(s[..|s| - 1]);
        if high.None? then None else Some(high.value * 10 + (c - '0') as int)
  }

  predicate PowerOfTwo(n: nat) {
    n == 1 || (n > 1 && n % 2 == 0 && PowerOfTwo(n / 2))
  }

  // ---- the string ----

  function Split(s: string, sep: char): (parts: seq<string>)
    ensures |parts| > 0
  {
    if s == "" then [""]
    else
      var rest := Split(s[1..], sep);
      if s[0] == sep then [""] + rest else [[s[0]] + rest[0]] + rest[1..]
  }

  datatype Stored = Stored(n: nat, r: nat, p: nat, salt: seq<Byte>, key: seq<Byte>)

  predicate InRange(n: nat, r: nat, p: nat) {
    1 < n <= MAX_N && PowerOfTwo(n) && 1 <= r <= MAX_R && 1 <= p <= MAX_P
  }

  function Field(field: string, rest: string): string {
    field + "$" + rest
  }

  function Render(h: Stored): string {
    Field(SCHEME, Field(Digits(h.n), Field(Digits(h.r), Field(Digits(h.p), Field(B64(h.salt), B64(h.key))))))
  }

  function Parse(stored: string): Option<Stored> {
    var parts := Split(stored, '$');
    if |parts| != 6 then None
    else
      var n, r, p := ParseDigits(parts[1]), ParseDigits(parts[2]), ParseDigits(parts[3]);
      if n.None? || r.None? || p.None? || parts[0] != SCHEME || !InRange(n.value, r.value, p.value) then None
      else
        var salt, key := Unb64(parts[4]), Unb64(parts[5]);
        if salt.None? || key.None? then None else Some(Stored(n.value, r.value, p.value, salt.value, key.value))
  }

  // The key derivation, deterministic and otherwise unknown.
  type Kdf = (string, seq<Byte>, nat, nat, nat) -> seq<Byte>

  function HashPassword(derive: Kdf, password: string, salt: seq<Byte>, n: nat, r: nat, p: nat): string {
    Render(Stored(n, r, p, salt, derive(password, salt, n, r, p)))
  }

  predicate VerifyPassword(derive: Kdf, password: string, stored: string) {
    var h := Parse(stored);
    h.Some? && derive(password, h.value.salt, h.value.n, h.value.r, h.value.p) == h.value.key
  }

  predicate NeedsRehash(stored: string) {
    var h := Parse(stored);
    h.Some? && (h.value.n < SCRYPT_N || h.value.r < SCRYPT_R || h.value.p < SCRYPT_P || |h.value.key| != KEY_BYTES)
  }

  // ---- base64 round trip ----

  lemma LetterRoundTrip(v: Sextet)
    ensures Sixth(Letter(v)) == Some(v) && Letter(v) != '=' && Letter(v) != '$'
  {
  }

  lemma SextetsRoundTrip(a: Byte, b: Byte, c: Byte)
    ensures (a / 4) * 4 + (a % 4 * 16 + b / 16) / 16 == a
    ensures (a % 4 * 16 + b / 16) % 16 * 16 + (b % 16 * 4 + c / 64) / 4 == b
    ensures (b % 16 * 4 + c / 64) % 4 * 64 + c % 64 == c
  {
  }

  // A group of four letters stands for its three bytes.
  lemma GroupRoundTrip(a: Byte, b: Byte, c: Byte)
    ensures Group(Letters(a, b, c)) == Some([a, b, c])
  {
    LetterRoundTrip(a / 4);
    LetterRoundTrip(a % 4 * 16 + b / 16);
    LetterRoundTrip(b % 16 * 4 + c / 64);
    LetterRoundTrip(c % 64);
    SextetsRoundTrip(a, b, c);
    assert Letters(a, b, c)[2..][0] == Letter(b % 16 * 4 + c / 64);
  }

  lemma TwoRoundTrip(a: Byte, b: Byte)
    ensures Group(Letters(a, b, 0)[..3] + "=") == Some([a, b])
  {
    LetterRoundTrip(a / 4);
    LetterRoundTrip(a % 4 * 16 + b / 16);
    LetterRoundTrip(b % 16 * 4);
    SextetsRoundTrip(a, b, 0);
    assert (Letters(a, b, 0)[..3] + "=")[2..][0] == Letter(b % 16 * 4);
  }

  lemma OneRoundTrip(a: Byte)
    ensures Group(Letters(a, 0, 0)[..2] + "==") == Some([a])
  {
    LetterRoundTrip(a / 4);
    LetterRoundTrip(a % 4 * 16);
    SextetsRoundTrip(a, 0, 0);
    assert (Letters(a, 0, 0)[..2] + "==")[2..] == "==";
  }

  // Stripping takes away the padding and nothing else.
  lemma StripPads(body: string, pads: string)
    requires body == "" || body[|body| - 1] != '='
    requires pads == "" || pads == "=" || pads == "=="
    ensures StripPadding(body + pads) == body
  {
    StripOne(body);
    assert StripPadding(body) == body;
    assert body + "" == body;
    assert (body + "==")[..|body| + 1] == body + "=";
  }

  lemma StripOne(body: string)
    ensures StripPadding(body + "=") == StripPadding(body)
  {
    assert (body + "=")[..|body|] == body;
  }

  // The letters and the padding of the last, shorter group.
  lemma ShortGroup(raw: seq<Byte>)
    requires |raw| == 1 || |raw| == 2
    ensures var letters := Letters(raw[0], if |raw| == 2 then raw[1] else 0, 0)[..|raw| + 1];
      && Encode(raw) == letters + Padding(|letters|)
      && '=' !in letters && '$' !in letters
      && B64(raw) == letters
  {
    var b: Byte := if |raw| == 2 then raw[1] else 0;
    var letters := Letters(raw[0], b, 0)[..|raw| + 1];
    LetterRoundTrip(raw[0] / 4);
    LetterRoundTrip(raw[0] % 4 * 16 + b / 16);
    LetterRoundTrip(b % 16 * 4);
    assert letters[0] == Letter(raw[0] / 4) && letters[1] == Letter(raw[0] % 4 * 16 + b / 16);
    assert |raw| == 2 ==> letters[2] == Letter(b % 16 * 4);
    StripPads(letters, Padding(|letters|));
  }

  // What the round trip needs of an encoding: stripped and padded again it is itself, and it
  // carries no separator.
  predicate Restorable(encoded: string) {
    var body := StripPadding(encoded);
    && body + Padding(|body|) == encoded
    && '=' !in body && '$' !in body
  }

  // The padding the decoder adds back is the padding that was stripped.
  lemma {:induction false} PaddingRestored(raw: seq<Byte>)
    ensures Restorable(Encode(raw))
    decreases |raw|
  {
    if |raw| == 1 || |raw| == 2 {
      ShortGroup(raw);
    } else if |raw| >= 3 {
      PaddingRestored(raw[3..]);
      FullGroup(raw[0], raw[1], raw[2]);
      LongerRestorable(Letters(raw[0], raw[1], raw[2]), Encode(raw[3..]));
    }
  }

  lemma LongerRestorable(head: string, rest: string)
    requires |head| == 4 && '=' !in head && '$' !in head && head[3] != '=' && Restorable(rest)
    ensures Restorable(head + rest)
  {
    PadsCarryOver(head, rest);
  }

  // A full group in front changes neither what is stripped nor what has to be added back.
  lemma PadsCarryOver(head: string, rest: string)
    requires |head| == 4 && head[3] != '='
    requires StripPadding(rest) + Padding(|StripPadding(rest)|) == rest
    ensures StripPadding(head + rest) == head + StripPadding(rest)
    ensures StripPadding(head + rest) + Padding(|StripPadding(head + rest)|) == head + rest
  {
    StripAfter(head, rest);
    var body := StripPadding(rest);
    PaddingPeriod(|body|);
    Regroup(head, body, Padding(|body|));
  }

  lemma PaddingPeriod(n: nat)
    ensures Padding(4 + n) == Padding(n)
  {
  }

  lemma Regroup(a: string, b: string, c: string)
    ensures (a + b) + c == a + (b + c)
  {
  }

  lemma FullGroup(a: Byte, b: Byte, c: Byte)
    ensures var head := Letters(a, b, c); |head| == 4 && '=' !in head && '$' !in head && head[3] != '='
  {
    LetterRoundTrip(a / 4);
    LetterRoundTrip(a % 4 * 16 + b / 16);
    LetterRoundTrip(b % 16 * 4 + c / 64);
    LetterRoundTrip(c % 64);
  }

  lemma {:induction false} StripAfter(head: string, s: string)
    requires head != "" && head[|head| - 1] != '='
    ensures StripPadding(head + s) == head + StripPadding(s)
    decreases |s|
  {
    if s == "" {
      assert head + s == head;
    } else if s[|s| - 1] == '=' {
      assert (head + s)[..|head + s| - 1] == head + s[..|s| - 1];
      StripAfter(head, s[..|s| - 1]);
    }
  }

  lemma {:induction false} DecodeEncode(raw: seq<Byte>)
    ensures Decode(Encode(raw)) == Some(raw)
    decreases |raw|
  {
    if |raw| == 1 || |raw| == 2 {
      DecodeShort(raw);
    } else if |raw| >= 3 {
      DecodeEncode(raw[3..]);
      DecodeFull(raw[0], raw[1], raw[2], Encode(raw[3..]));
      FirstThree(raw);
    }
  }

  lemma FirstThree<T>(s: seq<T>)
    requires |s| >= 3
    ensures [s[0], s[1], s[2]] + s[3..] == s
  {
  }

  lemma DecodeShort(raw: seq<Byte>)
    requires |raw| == 1 || |raw| == 2
    ensures Decode(Encode(raw)) == Some(raw)
  {
    if |raw| == 1 {
      OneRoundTrip(raw[0]);
      DecodeOne(Letters(raw[0], 0, 0)[..2] + "==");
      assert raw == [raw[0]];
    } else {
      TwoRoundTrip(raw[0], raw[1]);
      DecodeOne(Letters(raw[0], raw[1], 0)[..3] + "=");
      assert raw == [raw[0], raw[1]];
    }
  }

  lemma DecodeFull(a: Byte, b: Byte, c: Byte, rest: string)
    requires Decode(rest).Some?
    ensures Decode(Letters(a, b, c) + rest) == Some([a, b, c] + Decode(rest).value)
  {
    GroupRoundTrip(a, b, c);
    DecodeTwo(Letters(a, b, c), rest);
  }

  lemma DecodeTwo(head: string, rest: string)
    requires |head| == 4 && Group(head).Some? && |Group(head).value| == 3 && Decode(rest).Some?
    ensures Decode(head + rest) == Some(Group(head).value + Decode(rest).value)
  {
    assert (head + rest)[..4] == head && (head + rest)[4..] == rest;
  }

  lemma DecodeOne(s: string)
    requires |s| == 4
    ensures Decode(s) == Group(s)
  {
    assert s[..4] == s && s[4..] == "";
    assert Decode("") == Some([]);
    assert Group(s).Some? ==> Group(s).value + [] == Group(s).value;
  }

  // Unpadded base64 round-trips at every length, and never contains the field separator.
  lemma Base64RoundTrip(raw: seq<Byte>)
    ensures Unb64(B64(raw)) == Some(raw)
    ensures '$' !in B64(raw)
  {
    PaddingRestored(raw);
    DecodeEncode(raw);
  }

  // ---- number round trip ----

  lemma {:induction false} DigitsRoundTrip(n: nat)
    ensures ParseDigits(Digits(n)) == Some(n)
    ensures '$' !in Digits(n)
  {
    if n >= 10 {
      DigitsRoundTrip(n / 10);
      assert Digits(n)[..|Digits(n)| - 1] == Digits(n / 10);
    }
  }

  // ---- the whole string ----

  lemma {:induction false} SplitField(field: string, rest: string)
    requires '$' !in field
    ensures Split(Field(field, rest), '$') == [field] + Split(rest, '$')
    ensures Split(field, '$') == [field]
    decreases |field|
  {
    if field == "" {
      assert Field(field, rest)[1..] == rest;
    } else {
      SplitField(field[1..], rest);
      assert Field(field, rest)[1..] == Field(field[1..], rest);
      assert [field[0]] + field[1..] == field;
    }
  }

  lemma SplitRendered(h: Stored)
    ensures Split(Render(h), '$') == [SCHEME, Digits(h.n), Digits(h.r), Digits(h.p), B64(h.salt), B64(h.key)]
  {
    DigitsRoundTrip(h.n);
    DigitsRoundTrip(h.r);
    DigitsRoundTrip(h.p);
    Base64RoundTrip(h.salt);
    Base64RoundTrip(h.key);
    SplitSix(SCHEME, Digits(h.n), Digits(h.r), Digits(h.p), B64(h.salt), B64(h.key));
  }

  lemma SplitSix(a: string, b: string, c: string, d: string, e: string, f: string)
    requires '$' !in a && '$' !in b && '$' !in c && '$' !in d && '$' !in e && '$' !in f
    ensures Split(Field(a, Field(b, Field(c, Field(d, Field(e, f))))), '$') == [a, b, c, d, e, f]
  {
    SplitThree(d, e, f);
    var rest := Field(d, Field(e, f));
    SplitField(c, rest);
    SplitField(b, Field(c, rest));
    SplitField(a, Field(b, Field(c, rest)));
    assert [a] + ([b] + ([c] + [d, e, f])) == [a, b, c, d, e, f];
  }

  lemma SplitThree(d: string, e: string, f: string)
    requires '$' !in d && '$' !in e && '$' !in f
    ensures Split(Field(d, Field(e, f)), '$') == [d, e, f]
  {
    SplitField(f, "");
    SplitField(e, f);
    SplitField(d, Field(e, f));
    assert [d] + ([e] + [f]) == [d, e, f];
  }

  // ---- the parameters ----

  function Two(k: nat): nat {
    if k == 0 then 1 else 2 * Two(k - 1)
  }

  // A power of two above one and up to 1048576, a block size up to 32, a parallelism up to 16.
  ghost predicate Allowed(n: nat, r: nat, p: nat) {
    (exists k :: k >= 1 && n == Two(k)) && n <= 1048576 && 1 <= r <= 32 && 1 <= p <= 16
  }

  lemma {:induction false} TwoIsPower(k: nat)
    ensures Two(k) >= 1 && PowerOfTwo(Two(k))
  {
    if k > 0 {
      TwoIsPower(k - 1);
    }
  }

  lemma {:induction false} PowerIsTwo(n: nat) returns (k: nat)
    requires PowerOfTwo(n)
    ensures n == Two(k)
  {
    if n == 1 {
      k := 0;
    } else {
      var j := PowerIsTwo(n / 2);
      k := j + 1;
    }
  }

  lemma AllowedIff(n: nat, r: nat, p: nat)
    ensures InRange(n, r, p) <==> Allowed(n, r, p)
  {
    if PowerOfTwo(n) && n > 1 {
      var k := PowerIsTwo(n);
      assert k >= 1 && n == Two(k);
    }
    if exists k :: k >= 1 && n == Two(k) {
      var k :| k >= 1 && n == Two(k);
      TwoIsPower(k);
      TwoIsPower(k - 1);
    }
  }

  // A rendered hash parses back to exactly its parameters, salt and key when the parameters are
  // ones the reader accepts, and to nothing otherwise -- for all byte strings.
  lemma StoredRoundTrip(h: Stored)
    ensures Parse(Render(h)) == if Allowed(h.n, h.r, h.p) then Some(h) else None
  {
    AllowedIff(h.n, h.r, h.p);
    SplitRendered(h);
    DigitsRoundTrip(h.n);
    DigitsRoundTrip(h.r);
    DigitsRoundTrip(h.p);
    Base64RoundTrip(h.salt);
    Base64RoundTrip(h.key);
  }

  // So a stored hash accepts exactly the passwords that derive the same key under its salt, and
  // one with parameters out of range accepts none.
  lemma VerifyIff(derive: Kdf, password: string, attempt: string, salt: seq<Byte>, n: nat, r: nat, p: nat)
    ensures VerifyPassword(derive, attempt, HashPassword(derive, password, salt, n, r, p))
       <==> Allowed(n, r, p) && derive(attempt, salt, n, r, p) == derive(password, salt, n, r, p)
  {
    StoredRoundTrip(Stored(n, r, p, salt, derive(password, salt, n, r, p)));
    AllowedIff(n, r, p);
  }

  // And it asks to be rehashed exactly when a parameter is below today's or the key has another
  // length; out of range, never. Today's own parameters are in range.
  lemma RehashIff(derive: Kdf, password: string, salt: seq<Byte>, n: nat, r: nat, p: nat)
    ensures NeedsRehash(HashPassword(derive, password, salt, n, r, p))
       <==> && Allowed(n, r, p)
            && (n < 32768 || r < 8 || |derive(password, salt, n, r, p)| != 32)
    ensures Allowed(32768, 8, 1)
  {
    AllowedIff(n, r, p);
    TodaysAreAllowed();
    StoredRoundTrip(Stored(n, r, p, salt, derive(password, salt, n, r, p)));
  }

  lemma TodaysAreAllowed()
    ensures Allowed(32768, 8, 1)
  {
    assert Two(5) == 32;
    assert Two(10) == 1024;
    assert Two(15) == 32768;
  }

  // ---- the text itself ----

  // The alphabet: upper case, lower case, the digits in order, and two more letters.
  lemma LettersInOrder()
    ensures Letter(0) == 'A' && Letter(25) == 'Z' && Letter(26) == 'a' && Letter(51) == 'z'
    ensures Letter(52) == '0' && Letter(61) == '9' && Letter(62) == '-' && Letter(63) == '_'
    ensures forall v: int :: 0 <= v < 61 && v != 25 && v != 51 ==> Letter(v + 1) as int == Letter(v) as int + 1
  {
  }

  // And only its letters are read, each as what it was written for.
  lemma SixthIff(c: char, v: Sextet)
    ensures Sixth(c) == Some(v) <==> Letter(v) == c
  {
  }

  // Three bytes, read as one number of twenty-four bits, are written six bits at a time, the highest
  // first.
  lemma LettersAre(a: Byte, b: Byte, c: Byte)
    ensures var bits := (a * 256 + b) * 256 + c;
      && 0 <= bits < 64 * 262144
      && Letters(a, b, c)
         == [Letter(bits / 262144), Letter(bits / 4096 % 64), Letter(bits / 64 % 64), Letter(bits % 64)]
  {
    var x, y, z, w := a / 4, a % 4 * 16 + b / 16, b % 16 * 4 + c / 64, c % 64;
    SixBitsEach(x, y, z, w);
    assert (a * 256 + b) * 256 + c == ((x * 64 + y) * 64 + z) * 64 + w by {
      assert a == 4 * x + a % 4 && b == 16 * (b / 16) + b % 16 && c == 64 * (c / 64) + w;
    }
  }

  lemma SixBitsEach(x: Sextet, y: Sextet, z: Sextet, w: Sextet)
    ensures var bits := ((x * 64 + y) * 64 + z) * 64 + w;
      && bits / 262144 == x && bits / 4096 % 64 == y && bits / 64 % 64 == z && bits % 64 == w
  {
    var bits := ((x * 64 + y) * 64 + z) * 64 + w;
    assert bits / 64 == (x * 64 + y) * 64 + z;
    assert bits / 4096 == x * 64 + y;
    assert bits / 262144 == x;
  }

  // Every group of three is written so; a last byte or two are followed by zero bits, as two letters
  // or three, and nothing else.
  lemma B64Is(raw: seq<Byte>)
    ensures raw == [] ==> B64(raw) == ""
    ensures |raw| == 1 ==> B64(raw) == Letters(raw[0], 0, 0)[..2]
    ensures |raw| == 2 ==> B64(raw) == Letters(raw[0], raw[1], 0)[..3]
    ensures |raw| >= 3 ==> B64(raw) == Letters(raw[0], raw[1], raw[2]) + B64(raw[3..])
  {
    if |raw| == 1 || |raw| == 2 {
      ShortGroup(raw);
    } else if |raw| >= 3 {
      FullGroup(raw[0], raw[1], raw[2]);
      StripAfter(Letters(raw[0], raw[1], raw[2]), Encode(raw[3..]));
    }
  }

  // A number is written in tens, without leading zeros.
  lemma DigitsAre(n: nat, d: nat)
    requires d < 10
    ensures n < 10 ==> Digits(n) == [DIGITS[n]]
    ensures n > 0 ==> Digits(n * 10 + d) == Digits(n) + [DIGITS[d]]
  {
    assert (n * 10 + d) / 10 == n && (n * 10 + d) % 10 == d;
  }

  const DIGITS := "0123456789"

  // Exactly the texts of digits are read as numbers.
  lemma {:induction false} DigitsReadIff(s: string)
    ensures ParseDigits(s).Some? <==> s != "" && forall k :: 0 <= k < |s| ==> '0' <= s[k] <= '9'
    decreases |s|
  {
    if |s| > 1 {
      DigitsReadIff(s[..|s| - 1]);
      assert s == s[..|s| - 1] + [s[|s| - 1]];
    }
  }

  // The stored string: the scheme, the three numbers, the salt and the key.
  lemma RenderIs(h: Stored)
    ensures Render(h) == "scrypt$" + Digits(h.n) + "$" + Digits(h.r) + "$" + Digits(h.p) + "$"
                         + B64(h.salt) + "$" + B64(h.key)
  {
    assert "scrypt" + "$" == "scrypt$";
    Joined5(Digits(h.n), Digits(h.r), Digits(h.p), B64(h.salt), B64(h.key));
  }

  lemma Joined5(a: string, b: string, c: string, d: string, e: string)
    ensures Field("scrypt", Field(a, Field(b, Field(c, Field(d, e)))))
         == "scrypt$" + a + "$" + b + "$" + c + "$" + d + "$" + e
  {
  }

  // ---- what is accepted ----

  function Join(parts: seq<string>): string
    requires parts != []
  {
    if |parts| == 1 then parts[0] else parts[0] + "$" + Join(parts[1..])
  }

  lemma {:induction false} JoinSplit(s: string)
    ensures Join(Split(s, '$')) == s
    ensures forall k :: 0 <= k < |Split(s, '$')| ==> '$' !in Split(s, '$')[k]
  {
    if s != "" {
      JoinSplit(s[1..]);
      var rest := Split(s[1..], '$');
      assert [s[0]] + s[1..] == s;
      if s[0] == '$' {
        assert ([""] + rest)[1..] == rest;
      } else {
        assert ([[s[0]] + rest[0]] + rest[1..])[1..] == rest[1..];
      }
    }
  }

  // A string is accepted exactly when it is six texts between separators: the scheme, three numbers
  // that are allowed, and two byte strings; and they are what it is taken to say.
  lemma ParseIff(stored: string, h: Stored)
    ensures Parse(stored) == Some(h) <==> Allowed(h.n, h.r, h.p) && Says(stored, h)
  {
    AllowedIff(h.n, h.r, h.p);
    if Parse(stored) == Some(h) {
      ParsedSays(stored, h);
    } else if Allowed(h.n, h.r, h.p) && Says(stored, h) {
      var n, r, p, salt, key :| Reads(stored, h, n, r, p, salt, key);
      ReadParses(stored, h, n, r, p, salt, key);
    }
  }

  ghost predicate Says(stored: string, h: Stored) {
    exists n, r, p, salt, key :: Reads(stored, h, n, r, p, salt, key)
  }

  lemma ReadParses(stored: string, h: Stored, n: string, r: string, p: string, salt: string, key: string)
    requires InRange(h.n, h.r, h.p) && Reads(stored, h, n, r, p, salt, key)
    ensures Parse(stored) == Some(h)
  {
    Joined5(n, r, p, salt, key);
    assert '$' !in SCHEME;
    SplitSix(SCHEME, n, r, p, salt, key);
  }

  lemma ParsedSays(stored: string, h: Stored)
    requires Parse(stored) == Some(h)
    ensures InRange(h.n, h.r, h.p) && Says(stored, h)
  {
    JoinSplit(stored);
    var parts := Split(stored, '$');
    JoinSix(parts);
    Joined5(parts[1], parts[2], parts[3], parts[4], parts[5]);
    assert Reads(stored, h, parts[1], parts[2], parts[3], parts[4], parts[5]);
  }

  lemma JoinSix(parts: seq<string>)
    requires |parts| == 6
    ensures Join(parts)
         == Field(parts[0], Field(parts[1], Field(parts[2], Field(parts[3], Field(parts[4], parts[5])))))
  {
    JoinFrom(parts);
    JoinFrom(parts[1..]);
    JoinFrom(parts[2..]);
    JoinFrom(parts[3..]);
    JoinFrom(parts[4..]);
    assert parts[1..][1..] == parts[2..] && parts[2..][1..] == parts[3..] && parts[3..][1..] == parts[4..];
    assert parts[4..][1..] == parts[5..] && Join(parts[5..]) == parts[5];
  }

  lemma JoinFrom(parts: seq<string>)
    requires |parts| > 1
    ensures Join(parts) == Field(parts[0], Join(parts[1..]))
  {
  }

  ghost predicate Reads(stored: string, h: Stored, n: string, r: string, p: string, salt: string, key: string) {
    && stored == "scrypt$" + n + "$" + r + "$" + p + "$" + salt + "$" + key
    && '$' !in n && '$' !in r && '$' !in p && '$' !in salt && '$' !in key
    && ParseDigits(n) == Some(h.n) && ParseDigits(r) == Some(h.r) && ParseDigits(p) == Some(h.p)
    && Unb64(salt) == Some(h.salt) && Unb64(key) == Some(h.key)
  }
}
