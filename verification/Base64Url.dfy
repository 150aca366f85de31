/** Unpadded base64url (section 5 of RFC 4648), as base64.RawURLEncoding computes
    it: the decoder skips CR and LF and ignores trailing bits. */
module Base64Url {
  import opened Wrappers

  type sextet = i: int | 0 <= i < 64

  // Table 2 of RFC 4648.
  function ToChar(i: sextet): (c: char)
    ensures InAlphabet(c)
    ensures i < 26 ==> c as int - 'A' as int == i
    ensures 26 <= i < 52 ==> c as int - 'a' as int == i - 26
    ensures 52 <= i < 62 ==> c as int - '0' as int == i - 52
    ensures (i == 62 ==> c == '-') && (i == 63 ==> c == '_')
  {
    if i < 26 then (i + 65) as char
    else if i < 52 then (i + 71) as char
    else if i < 62 then (i - 4) as char
    else if i == 62 then '-'
    else '_'
  }

  predicate InAlphabet(c: char) {
    'A' <= c <= 'Z' || 'a' <= c <= 'z' || '0' <= c <= '9' || c == '-' || c == '_'
  }

  function FromChar(c: char): Option<sextet> {
    if 'A' <= c <= 'Z' then Some(c as int - 65)
    else if 'a' <= c <= 'z' then Some(c as int - 71)
    else if '0' <= c <= '9' then Some(c as int + 4)
    else if c == '-' then Some(62)
    else if c == '_' then Some(63)
    else None
  }

  lemma CharRoundTrip(i: sextet)
    ensures FromChar(ToChar(i)) == Some(i)
  {
  }

  lemma CharExactly(c: char, i: sextet)
    ensures FromChar(c) == Some(i) <==> ToChar(i) == c
    ensures FromChar(c).Some? <==> InAlphabet(c)
  {
  }

  // One, two or three octets become two, three or four characters.
  function EncodeGroup(b: Bytes): (s: string)
    requires 1 <= |b| <= 3
    ensures |s| == |b| + 1
    ensures forall c :: c in s ==> InAlphabet(c)
  {
    if |b| == 1 then
      [ToChar(b[0] / 4), ToChar(b[0] % 4 * 16)]
    else if |b| == 2 then
      [ToChar(b[0] / 4), ToChar(b[0] % 4 * 16 + b[1] / 16), ToChar(b[1] % 16 * 4)]
    else
      [ToChar(b[0] / 4), ToChar(b[0] % 4 * 16 + b[1] / 16),
       ToChar(b[1] % 16 * 4 + b[2] / 64), ToChar(b[2] % 64)]
  }

  function Encode(b: Bytes): string {
    if b == [] then ""
    else if |b| <= 3 then EncodeGroup(b)
    else EncodeGroup(b[..3]) + Encode(b[3..])
  }

  // A lone character is an incomplete group; the bits of a short group that
  // fill no octet are ignored.
  function DecodeGroup(s: string): (r: Option<Bytes>)
    requires 1 <= |s| <= 4
    ensures r.Some? ==> |r.value| == |s| - 1
  {
    if |s| == 1 then None
    else
      var x0 :- FromChar(s[0]);
      var x1 :- FromChar(s[1]);
      if |s| == 2 then Some([x0 * 4 + x1 / 16])
      else
        var x2 :- FromChar(s[2]);
        if |s| == 3 then Some([x0 * 4 + x1 / 16, x1 % 16 * 16 + x2 / 4])
        else
          var x3 :- FromChar(s[3]);
          Some([x0 * 4 + x1 / 16, x1 % 16 * 16 + x2 / 4, x2 % 4 * 64 + x3])
  }

  function DecodeGroups(s: string): Option<Bytes> {
    if s == "" then Some([])
    else if |s| <= 4 then DecodeGroup(s)
    else
      var head :- DecodeGroup(s[..4]);
      var tail :- DecodeGroups(s[4..]);
      Some(head + tail)
  }

  function StripNewlines(s: string): string {
    if s == "" then ""
    else if s[0] == '\r' || s[0] == '\n' then StripNewlines(s[1..])
    else [s[0]] + StripNewlines(s[1..])
  }

  function Decode(s: string): Option<Bytes> {
    DecodeGroups(StripNewlines(s))
  }

  lemma GroupRoundTrip(b: Bytes)
    requires 1 <= |b| <= 3
    ensures DecodeGroup(EncodeGroup(b)) == Some(b)
  {
    CharRoundTrip(b[0] / 4);
    if |b| == 1 {
      CharRoundTrip(b[0] % 4 * 16);
      assert b == [b[0]];
    } else {
      CharRoundTrip(b[0] % 4 * 16 + b[1] / 16);
      if |b| == 2 {
        CharRoundTrip(b[1] % 16 * 4);
        assert b == [b[0], b[1]];
      } else {
        CharRoundTrip(b[1] % 16 * 4 + b[2] / 64);
        CharRoundTrip(b[2] % 64);
        assert b == [b[0], b[1], b[2]];
      }
    }
  }

  lemma {:induction false} GroupsRoundTrip(b: Bytes)
    ensures DecodeGroups(Encode(b)) == Some(b)
  {
    if b != [] {
      if |b| <= 3 {
        GroupRoundTrip(b);
      } else {
        var head, tail := EncodeGroup(b[..3]), Encode(b[3..]);
        GroupRoundTrip(b[..3]);
        GroupsRoundTrip(b[3..]);
        assert (head + tail)[..4] == head && (head + tail)[4..] == tail;
        assert b[..3] + b[3..] == b;
      }
    }
  }

  // The encoder writes alphabet characters only, and ceil(4n/3) of them.
  lemma {:induction false} EncodeShape(b: Bytes)
    ensures forall c :: c in Encode(b) ==> InAlphabet(c)
    ensures |Encode(b)| == (4 * |b| + 2) / 3
  {
    if |b| > 3 {
      EncodeShape(b[3..]);
    }
  }

  lemma {:induction false} StripNothing(s: string)
    requires '\r' !in s && '\n' !in s
    ensures StripNewlines(s) == s
  {
    if s != "" {
      StripNothing(s[1..]);
    }
  }

  lemma RoundTrip(b: Bytes)
    ensures Decode(Encode(b)) == Some(b)
  {
    EncodeShape(b);
    StripNothing(Encode(b));
    GroupsRoundTrip(b);
  }

  lemma Injective(a: Bytes, b: Bytes)
    requires Encode(a) == Encode(b)
    ensures a == b
  {
    RoundTrip(a);
    RoundTrip(b);
  }

  lemma {:induction false} GroupsInAlphabet(s: string)
    requires DecodeGroups(s).Some?
    ensures forall c :: c in s ==> InAlphabet(c)
  {
    if |s| > 4 {
      GroupsInAlphabet(s[4..]);
      assert s == s[..4] + s[4..];
    }
  }

  lemma {:induction false} StripKeeps(s: string, c: char)
    requires c in s && c != '\r' && c != '\n'
    ensures c in StripNewlines(s)
  {
    if s[0] != c {
      StripKeeps(s[1..], c);
    }
  }

  // A string holding any character outside the alphabet, other than the two
  // that are skipped, does not decode.
  lemma ForeignCharacterRejected(s: string, c: char)
    requires c in s && !InAlphabet(c) && c != '\r' && c != '\n'
    ensures Decode(s) == None
  {
    StripKeeps(s, c);
    if Decode(s).Some? {
      GroupsInAlphabet(StripNewlines(s));
    }
  }

  // ----- what the text stands for -----

  function Digit(c: char): (i: sextet) {
    match FromChar(c)
    case Some(i) => i
    case None => 0
  }

  // The characters of a group are the base-64 digits of its octets read as one
  // big-endian number, filled up on the right with zero bits.
  lemma GroupNumber(b: Bytes)
    requires 1 <= |b| <= 3
    ensures var s := EncodeGroup(b);
            && (|b| == 1 ==> Digit(s[0]) * 64 + Digit(s[1]) == b[0] as int * 16)
            && (|b| == 2 ==> Digit(s[0]) * 4096 + Digit(s[1]) * 64 + Digit(s[2]) == (b[0] as int * 256 + b[1]) * 4)
            && (|b| == 3 ==> Digit(s[0]) * 262144 + Digit(s[1]) * 4096 + Digit(s[2]) * 64 + Digit(s[3])
                             == b[0] as int * 65536 + b[1] as int * 256 + b[2])
  {
    hide ToChar, FromChar;
    CharRoundTrip(b[0] / 4);
    if |b| == 1 {
      CharRoundTrip(b[0] % 4 * 16);
    } else {
      CharRoundTrip(b[0] % 4 * 16 + b[1] / 16);
      if |b| == 2 {
        CharRoundTrip(b[1] % 16 * 4);
      } else {
        CharRoundTrip(b[1] % 16 * 4 + b[2] / 64);
        CharRoundTrip(b[2] % 64);
      }
    }
  }

  lemma EncodeHead(b: Bytes)
    requires |b| >= 3
    ensures Encode(b) == EncodeGroup(b[..3]) + Encode(b[3..])
  {
    hide EncodeGroup;
    if |b| == 3 {
      assert b[..3] == b;
    }
  }

  // Groups of three octets are encoded one after the other.
  lemma {:induction false} EncodeConcat(a: Bytes, b: Bytes)
    requires |a| % 3 == 0
    ensures Encode(a + b) == Encode(a) + Encode(b)
  {
    hide Encode, EncodeGroup;
    if a == [] {
      assert a + b == b && Encode(a) == "" by { EncodeNothing(); }
    } else {
      EncodeHead(a + b);
      EncodeHead(a);
      assert (a + b)[..3] == a[..3] && (a + b)[3..] == a[3..] + b;
      EncodeConcat(a[3..], b);
    }
  }

  lemma EncodeNothing()
    ensures Encode([]) == ""
  {
  }

  // How much of its last character counts, in a text of this length.
  function Unit(length: nat): (u: nat)
    ensures u > 0
  {
    if length % 4 == 2 then 16 else if length % 4 == 3 then 4 else 1
  }

  // The same characters, but for the bits of the last one that fill no octet.
  predicate SameButTrailingBits(s: string, t: string) {
    && |s| == |t|
    && (forall i :: 0 <= i < |s| - 1 ==> s[i] == t[i])
    && (|s| > 0 ==>
          && InAlphabet(s[|s| - 1]) && InAlphabet(t[|t| - 1])
          && Digit(s[|s| - 1]) / Unit(|s|) == Digit(t[|t| - 1]) / Unit(|t|))
  }

  lemma CharFacts(c: char, x: sextet)
    ensures c == ToChar(x) <==> FromChar(c) == Some(x)
    ensures FromChar(c).Some? <==> InAlphabet(c)
    ensures FromChar(c).Some? ==> FromChar(c) == Some(Digit(c))
    ensures Digit(ToChar(x)) == x && InAlphabet(ToChar(x))
  {
    CharRoundTrip(x);
  }

  // A group decodes to the octets whose encoding it is, up to trailing bits.
  lemma GroupExactly(s: string, b: Bytes)
    requires 1 <= |s| <= 4
    ensures DecodeGroup(s) == Some(b) <==> 1 <= |b| <= 3 && SameButTrailingBits(s, EncodeGroup(b))
  {
    if |b| == |s| - 1 && |b| > 0 {
      if |b| == 1 {
        PairExactly(s, b);
      } else if |b| == 2 {
        TripleExactly(s, b);
      } else {
        QuadExactly(s, b);
      }
    }
  }

  lemma PairExactly(s: string, b: Bytes)
    requires |s| == 2 && |b| == 1
    ensures DecodeGroup(s) == Some(b) <==> SameButTrailingBits(s, EncodeGroup(b))
  {
    hide ToChar, FromChar, InAlphabet, Digit;
    CharFacts(s[0], b[0] / 4);
    CharFacts(s[1], b[0] % 4 * 16);
    assert b == [b[0]];
    assert EncodeGroup(b)[0] == ToChar(b[0] / 4) && EncodeGroup(b)[1] == ToChar(b[0] % 4 * 16);
  }

  lemma TripleExactly(s: string, b: Bytes)
    requires |s| == 3 && |b| == 2
    ensures DecodeGroup(s) == Some(b) <==> SameButTrailingBits(s, EncodeGroup(b))
  {
    hide ToChar, FromChar, InAlphabet, Digit;
    CharFacts(s[0], b[0] / 4);
    CharFacts(s[1], b[0] % 4 * 16 + b[1] / 16);
    CharFacts(s[2], b[1] % 16 * 4);
    assert b == [b[0], b[1]];
    var e := EncodeGroup(b);
    assert e[0] == ToChar(b[0] / 4) && e[1] == ToChar(b[0] % 4 * 16 + b[1] / 16) && e[2] == ToChar(b[1] % 16 * 4);
  }

  // Quotient and remainder are unique.
  lemma Cut4(h: int, l: int, n: int)
    requires 0 <= l < 4
    ensures h * 4 + l == n <==> h == n / 4 && l == n % 4
  {
  }

  lemma Cut16(h: int, l: int, n: int)
    requires 0 <= l < 16
    ensures h * 16 + l == n <==> h == n / 16 && l == n % 16
  {
  }

  lemma Cut64(h: int, l: int, n: int)
    requires 0 <= l < 64
    ensures h * 64 + l == n <==> h == n / 64 && l == n % 64
  {
  }

  lemma QuadBits(x0: sextet, x1: sextet, x2: sextet, x3: sextet, b: Bytes)
    requires |b| == 3
    ensures (x0 * 4 + x1 / 16 == b[0] && x1 % 16 * 16 + x2 / 4 == b[1] && x2 % 4 * 64 + x3 == b[2])
            <==> (x0 == b[0] / 4 && x1 == b[0] % 4 * 16 + b[1] / 16
                  && x2 == b[1] % 16 * 4 + b[2] / 64 && x3 == b[2] % 64)
  {
    Cut4(x0, x1 / 16, b[0]);
    Cut16(x1 % 16, x2 / 4, b[1]);
    Cut64(x2 % 4, x3, b[2]);
    Cut16(b[0] % 4, b[1] / 16, x1);
    Cut4(b[1] % 16, b[2] / 64, x2);
  }

  lemma QuadExactly(s: string, b: Bytes)
    requires |s| == 4 && |b| == 3
    ensures DecodeGroup(s) == Some(b) <==> SameButTrailingBits(s, EncodeGroup(b))
  {
    hide ToChar, FromChar, InAlphabet, Digit, SameButTrailingBits;
    CharFacts(s[0], b[0] / 4);
    CharFacts(s[1], b[0] % 4 * 16 + b[1] / 16);
    CharFacts(s[2], b[1] % 16 * 4 + b[2] / 64);
    CharFacts(s[3], b[2] % 64);
    QuadBits(Digit(s[0]), Digit(s[1]), Digit(s[2]), Digit(s[3]), b);
    SameGroup(s, EncodeGroup(b));
    assert b == [b[0], b[1], b[2]];
  }

  // A whole group has no trailing bits.
  lemma SameGroup(s: string, t: string)
    requires |s| == 4 && |t| == 4 && InAlphabet(t[3])
    ensures SameButTrailingBits(s, t) <==> s[0] == t[0] && s[1] == t[1] && s[2] == t[2] && s[3] == t[3]
  {
    hide InAlphabet, Digit;
    if SameButTrailingBits(s, t) {
      SameDigit(s[3], t[3]);
    }
  }

  lemma SameDigit(c: char, d: char)
    requires InAlphabet(c) && InAlphabet(d) && Digit(c) == Digit(d)
    ensures c == d
  {
  }

  // Whole groups in front must be the same to the last bit.
  lemma SameSplit(s: string, head: string, tail: string)
    requires |s| > 4 && |head| == 4 && |tail| > 0 && InAlphabet(head[3])
    ensures SameButTrailingBits(s, head + tail)
            <==> SameButTrailingBits(s[..4], head) && SameButTrailingBits(s[4..], tail)
  {
    hide InAlphabet, Digit, Unit, SameButTrailingBits;
    SameGroup(s[..4], head);
    SameTail(s, head, tail);
    assert s[..4] == head <==> s[0] == head[0] && s[1] == head[1] && s[2] == head[2] && s[3] == head[3];
  }

  lemma SameTail(s: string, head: string, tail: string)
    requires |s| > 4 && |head| == 4 && |tail| > 0
    ensures SameButTrailingBits(s, head + tail) <==> s[..4] == head && SameButTrailingBits(s[4..], tail)
  {
    hide InAlphabet, Digit, Unit;
    UnitPeriod(|s|);
    var t := head + tail;
    if |s| == |t| {
      assert t[|t| - 1] == tail[|tail| - 1] && s[|s| - 1] == s[4..][|tail| - 1];
      if SameButTrailingBits(s, t) {
        assert forall i :: 0 <= i < |tail| - 1 ==> s[4..][i] == s[4 + i] && tail[i] == t[4 + i];
      }
      if s[..4] == head && SameButTrailingBits(s[4..], tail) {
        assert forall i :: 0 <= i < 4 ==> s[i] == s[..4][i];
        assert forall i :: 4 <= i < |s| - 1 ==> s[i] == s[4..][i - 4] && t[i] == tail[i - 4];
      }
    }
  }

  lemma UnitPeriod(n: nat)
    requires n >= 4
    ensures Unit(n) == Unit(n - 4)
  {
  }

  lemma SomethingDecoded(s: string)
    requires s != ""
    ensures DecodeGroups(s) != Some([])
  {
  }

  lemma {:induction false} GroupsExactly(s: string, b: Bytes)
    ensures DecodeGroups(s) == Some(b) <==> SameButTrailingBits(s, Encode(b))
  {
    hide DecodeGroup, EncodeGroup, InAlphabet, Digit, SameButTrailingBits;
    EncodeShape(b);
    if s == "" {
      EmptySame(Encode(b));
    } else if |b| == 0 {
      EmptySame(s);
      SomethingDecoded(s);
    } else if |s| <= 4 {
      GroupExactly(s, b);
      LengthSame(s, Encode(b));
    } else if |b| > 3 {
      var head, tail := EncodeGroup(b[..3]), Encode(b[3..]);
      assert b == b[..3] + b[3..];
      GroupExactly(s[..4], b[..3]);
      GroupsExactly(s[4..], b[3..]);
      EncodeShape(b[3..]);
      SameSplit(s, head, tail);
    } else {
      LengthSame(s, Encode(b));
      SomethingDecoded(s[4..]);
    }
  }

  lemma EmptySame(s: string)
    ensures SameButTrailingBits("", s) <==> s == ""
    ensures SameButTrailingBits(s, "") <==> s == ""
  {
  }

  lemma LengthSame(s: string, t: string)
    ensures SameButTrailingBits(s, t) ==> |s| == |t|
  {
  }

  // Exactly which texts decode, and to what: leaving out CR and LF, those that
  // are the encoding up to the trailing bits of the last character.
  lemma DecodeExactly(s: string, b: Bytes)
    ensures Decode(s) == Some(b) <==> SameButTrailingBits(StripNewlines(s), Encode(b))
  {
    GroupsExactly(StripNewlines(s), b);
  }

  // A group of one character is incomplete.
  lemma LoneCharacterRejected(s: string)
    requires |StripNewlines(s)| % 4 == 1
    ensures Decode(s) == None
  {
    hide Decode, StripNewlines, Encode, SameButTrailingBits;
    if Decode(s).Some? {
      var b := Decode(s).value;
      DecodeExactly(s, b);
      LengthSame(StripNewlines(s), Encode(b));
      EncodeShape(b);
    }
  }

  // CR and LF count nowhere.
  lemma {:induction false} NewlinesSkipped(s: string, c: char, t: string)
    requires c == '\r' || c == '\n'
    ensures Decode(s + [c] + t) == Decode(s + t)
    ensures StripNewlines(s + [c] + t) == StripNewlines(s + t)
  {
    if s == "" {
      assert ([c] + t)[1..] == t && s + [c] + t == [c] + t && s + t == t;
    } else {
      NewlinesSkipped(s[1..], c, t);
      assert (s + [c] + t)[1..] == s[1..] + [c] + t;
      assert (s + t)[1..] == s[1..] + t;
    }
  }
}
