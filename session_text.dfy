/**
 * The two text helpers of the session review page: the `m:ss` clock label
 * (`formatTime`) and the comma-separated tag field of the note composer
 * (`split(",")`, `trim()` on each piece, `filter(Boolean)`).
 *
 * Strings are sequences of characters. `trim` removes the characters
 * ECMAScript counts as WhiteSpace or LineTerminator (section 22.1.3.32 of
 * ECMA-262 defers to those two productions).
 */
module SessionText {

  // ---------------------------------------------------------------------------
  // Decimal digits
  // ---------------------------------------------------------------------------

  predicate IsDigit(c: char)
  {
    '0' <= c <= '9'
  }

  predicate AllDigits(s: string)
  {
    forall i :: 0 <= i < |s| ==> IsDigit(s[i])
  }

  function DigitChar(d: nat): (c: char)
    requires d < 10
    ensures IsDigit(c) && (c as int) - ('0' as int) == d
  {
    (('0' as int) + d) as char
  }

  /** The value a string of decimal digits denotes. */
  function DecimalValue(s: string): nat
    requires AllDigits(s)
  {
    if |s| == 0 then 0
    else 10 * DecimalValue(s[..|s| - 1]) + ((s[|s| - 1] as int) - ('0' as int))
  }

  /** `n.toString()` for a non-negative integer: its decimal digits, without leading zeros. */
  function NatToDecimal(n: nat): (s: string)
    ensures 1 <= |s| && AllDigits(s)
    ensures |s| == 1 || s[0] != '0'
    ensures DecimalValue(s) == n
    ensures n < 10 <==> |s| == 1
    decreases n
  {
    if n < 10 then [DigitChar(n)]
    else
      var prefix := NatToDecimal(n / 10);
      var s := prefix + [DigitChar(n % 10)];
      assert s[..|s| - 1] == prefix;
      s
  }

  /** Digit strings without leading zeros denote different values. */
  lemma {:induction false} DecimalValueInjective(a: string, b: string)
    requires AllDigits(a) && AllDigits(b) && 1 <= |a| && 1 <= |b|
    requires |a| == 1 || a[0] != '0'
    requires |b| == 1 || b[0] != '0'
    requires DecimalValue(a) == DecimalValue(b)
    ensures a == b
    decreases |a|
  {
    var a', b' := a[..|a| - 1], b[..|b| - 1];
    var da, db := (a[|a| - 1] as int) - ('0' as int), (b[|b| - 1] as int) - ('0' as int);
    assert 10 * DecimalValue(a') + da == 10 * DecimalValue(b') + db;
    assert da == db && DecimalValue(a') == DecimalValue(b');
    if |a| == 1 || |b| == 1 {
      if |a| > 1 {
        LeadingDigitPositive(a');
      } else if |b| > 1 {
        LeadingDigitPositive(b');
      }
    } else {
      DecimalValueInjective(a', b');
    }
    assert a == a' + [a[|a| - 1]] && b == b' + [b[|b| - 1]];
  }

  /** A digit string that starts with a non-zero digit denotes a positive value. */
  lemma {:induction false} LeadingDigitPositive(s: string)
    requires AllDigits(s) && 1 <= |s| && s[0] != '0'
    ensures DecimalValue(s) > 0
    decreases |s|
  {
    if |s| > 1 {
      LeadingDigitPositive(s[..|s| - 1]);
    }
  }

  /** `s.padStart(width, "0")`: zeros in front up to the width, longer strings unchanged. */
  function PadStartZero(s: string, width: nat): (r: string)
    ensures |r| == if |s| < width then width else |s|
    ensures r[|r| - |s|..] == s
    ensures forall i :: 0 <= i < |r| - |s| ==> r[i] == '0'
  {
    var pad := if |s| < width then width - |s| else 0;
    seq(pad, _ => '0') + s
  }

  /** Leading zeros do not change the value of a digit string. */
  lemma {:induction false} LeadingZerosValue(zeros: string, s: string)
    requires AllDigits(s)
    requires forall i :: 0 <= i < |zeros| ==> zeros[i] == '0'
    ensures AllDigits(zeros + s) && DecimalValue(zeros + s) == DecimalValue(s)
    decreases |s|
  {
    var r := zeros + s;
    if |s| == 0 {
      assert r == zeros;
      AllZerosValue(zeros);
    } else {
      assert r[..|r| - 1] == zeros + s[..|s| - 1];
      LeadingZerosValue(zeros, s[..|s| - 1]);
    }
  }

  lemma {:induction false} AllZerosValue(zeros: string)
    requires forall i :: 0 <= i < |zeros| ==> zeros[i] == '0'
    ensures AllDigits(zeros) && DecimalValue(zeros) == 0
    decreases |zeros|
  {
    if |zeros| > 0 {
      AllZerosValue(zeros[..|zeros| - 1]);
    }
  }

  // ---------------------------------------------------------------------------
  // formatTime
  // ---------------------------------------------------------------------------

  /** The text reads as a clock label for `seconds`: decimal minutes without leading zeros,
      a colon, and exactly two digits of seconds below 60. */
  ghost predicate ReadsAsClock(text: string, seconds: int)
  {
    && |text| >= 4
    && text[|text| - 3] == ':'
    && AllDigits(text[..|text| - 3]) && AllDigits(text[|text| - 2..])
    && (|text| == 4 || text[0] != '0')
    && DecimalValue(text[|text| - 2..]) < 60
    && 60 * DecimalValue(text[..|text| - 3]) + DecimalValue(text[|text| - 2..]) == seconds
  }

  /** `formatTime`: `"0:00"` for negative times; otherwise the whole seconds as `m:ss`. */
  function FormatTime(t: real): (clock: string)
    ensures t < 0.0 ==> clock == "0:00"
    ensures 0.0 <= t ==> ReadsAsClock(clock, t.Floor)
  {
    if t < 0.0 then "0:00"
    else
      var totalSeconds: nat := t.Floor;
      ClockTextReads(totalSeconds / 60, totalSeconds % 60);
      NatToDecimal(totalSeconds / 60) + ":" + PadStartZero(NatToDecimal(totalSeconds % 60), 2)
  }

  /** Seconds below 60 padded to two places are two digits that read as the seconds. */
  lemma PaddedSeconds(seconds: nat)
    requires seconds < 60
    ensures var ss := PadStartZero(NatToDecimal(seconds), 2);
      |ss| == 2 && AllDigits(ss) && DecimalValue(ss) == seconds
  {
    var digits := NatToDecimal(seconds);
    if 10 <= seconds {
      assert digits == NatToDecimal(seconds / 10) + [DigitChar(seconds % 10)];
    }
    var ss := PadStartZero(digits, 2);
    LeadingZerosValue(ss[..|ss| - |digits|], digits);
    assert ss == ss[..|ss| - |digits|] + digits;
  }

  /** The minutes, a colon and the padded seconds read as the clock for that time. */
  lemma ClockTextReads(minutes: nat, seconds: nat)
    requires seconds < 60
    ensures ReadsAsClock(NatToDecimal(minutes) + ":" + PadStartZero(NatToDecimal(seconds), 2),
      60 * minutes + seconds)
  {
    PaddedSeconds(seconds);
    ClockOfParts(NatToDecimal(minutes), PadStartZero(NatToDecimal(seconds), 2), 60 * minutes + seconds);
  }

  /** Minutes without leading zeros, a colon and two digits below 60 form a clock label. */
  lemma ClockOfParts(m: string, ss: string, seconds: int)
    requires 1 <= |m| && AllDigits(m) && (|m| == 1 || m[0] != '0')
    requires |ss| == 2 && AllDigits(ss) && DecimalValue(ss) < 60
    requires 60 * DecimalValue(m) + DecimalValue(ss) == seconds
    ensures ReadsAsClock(m + ":" + ss, seconds)
  {
    var clock := m + ":" + ss;
    assert clock[..|clock| - 3] == m;
    assert clock[|clock| - 2..] == ss;
  }

  /** A clock label determines its number of seconds, and each number of seconds has exactly
      one label: two times get the same label exactly when they have the same whole seconds. */
  lemma FormatTimeSameLabel(t1: real, t2: real)
    requires 0.0 <= t1 && 0.0 <= t2
    ensures FormatTime(t1) == FormatTime(t2) <==> t1.Floor == t2.Floor
  {
    var a, b := FormatTime(t1), FormatTime(t2);
    if t1.Floor == t2.Floor {
      ClockLabelUnique(a, b, t1.Floor);
    } else if a == b {
      ClockSecondsDetermined(a, t1.Floor, t2.Floor);
    }
  }

  /** A clock label reads as one number of seconds only. */
  lemma ClockSecondsDetermined(text: string, s1: int, s2: int)
    requires ReadsAsClock(text, s1) && ReadsAsClock(text, s2)
    ensures s1 == s2
  {
  }

  /** Two labels reading as the same number of seconds are the same label. */
  lemma ClockLabelUnique(a: string, b: string, seconds: int)
    requires ReadsAsClock(a, seconds) && ReadsAsClock(b, seconds)
    ensures a == b
  {
    var ma, mb := a[..|a| - 3], b[..|b| - 3];
    var sa, sb := a[|a| - 2..], b[|b| - 2..];
    assert DecimalValue(sa) == DecimalValue(sb) && DecimalValue(ma) == DecimalValue(mb);
    DecimalValueInjective(ma, mb);
    TwoDigitsInjective(sa, sb);
    assert a == ma + ":" + sa && b == mb + ":" + sb;
  }

  lemma TwoDigitsInjective(a: string, b: string)
    requires |a| == 2 && |b| == 2 && AllDigits(a) && AllDigits(b)
    requires DecimalValue(a) == DecimalValue(b)
    ensures a == b
  {
    assert a[..1][..0] == [] && b[..1][..0] == [];
  }

  // ---------------------------------------------------------------------------
  // trim
  // ---------------------------------------------------------------------------

  /** ECMAScript WhiteSpace and LineTerminator code points. */
  predicate IsWhitespace(c: char)
  {
    var n := c as int;
    || n == 0x09 || n == 0x0A || n == 0x0B || n == 0x0C || n == 0x0D || n == 0x20
    || n == 0xA0 || n == 0x1680 || (0x2000 <= n <= 0x200A) || n == 0x2028 || n == 0x2029
    || n == 0x202F || n == 0x205F || n == 0x3000 || n == 0xFEFF
  }

  /** Every character of the string is whitespace. */
  predicate AllWhitespace(s: string)
  {
    forall i :: 0 <= i < |s| ==> IsWhitespace(s[i])
  }

  /** Neither end of the string is whitespace (the empty string included). */
  predicate IsTrimmed(s: string)
  {
    |s| == 0 || (!IsWhitespace(s[0]) && !IsWhitespace(s[|s| - 1]))
  }

  /** The string with its leading whitespace removed. */
  function TrimStart(s: string): string
  {
    if |s| > 0 && IsWhitespace(s[0]) then TrimStart(s[1..]) else s
  }

  /** `TrimStart` removes a whitespace prefix, and what is left does not start with
      whitespace. */
  lemma {:induction false} TrimStartSpec(s: string)
    ensures var r := TrimStart(s);
      && |r| <= |s| && r == s[|s| - |r|..]
      && AllWhitespace(s[..|s| - |r|])
      && (|r| == 0 || !IsWhitespace(r[0]))
  {
    if |s| > 0 && IsWhitespace(s[0]) {
      TrimStartSpec(s[1..]);
      var r := TrimStart(s);
      assert s[..|s| - |r|] == [s[0]] + s[1..][..|s| - 1 - |r|];
    }
  }

  /** The string with its trailing whitespace removed. */
  function TrimEnd(s: string): string
  {
    if |s| > 0 && IsWhitespace(s[|s| - 1]) then TrimEnd(s[..|s| - 1]) else s
  }

  /** `TrimEnd` removes a whitespace suffix, and what is left does not end with whitespace. */
  lemma {:induction false} TrimEndSpec(s: string)
    ensures var r := TrimEnd(s);
      && |r| <= |s| && r == s[..|r|]
      && AllWhitespace(s[|r|..])
      && (|r| == 0 || !IsWhitespace(r[|r| - 1]))
  {
    if |s| > 0 && IsWhitespace(s[|s| - 1]) {
      var init := s[..|s| - 1];
      TrimEndSpec(init);
      var r := TrimEnd(s);
      assert s[|r|..] == init[|r|..] + [s[|s| - 1]];
    }
  }

  /** r is the part of s that starts at index i, and everything of s before and after it is
      whitespace. */
  ghost predicate IsInfixAmidWhitespace(s: string, r: string, i: int)
  {
    && 0 <= i <= |s| - |r| && r == s[i..i + |r|]
    && AllWhitespace(s[..i]) && AllWhitespace(s[i + |r|..])
  }

  /** `s.trim()`: the part of s between its leading and its trailing whitespace. It is no
      longer than s and neither of its ends is whitespace. */
  function Trim(s: string): (r: string)
    ensures |r| <= |s| && IsTrimmed(r)
  {
    TrimStartSpec(s);
    TrimEndSpec(TrimStart(s));
    TrimEnd(TrimStart(s))
  }

  /** The trimmed string has no whitespace at either end, and it is what lies between a
      whitespace prefix and a whitespace suffix of the original. */
  lemma TrimSpec(s: string)
    ensures IsTrimmed(Trim(s))
    ensures exists i :: IsInfixAmidWhitespace(s, Trim(s), i)
  {
    var front := TrimStart(s);
    var r := TrimEnd(front);
    TrimStartSpec(s);
    TrimEndSpec(front);
    var i := |s| - |front|;
    assert s[i + |r|..] == front[|r|..];
    assert s[i..i + |r|] == front[..|r|];
    assert IsInfixAmidWhitespace(s, r, i);
  }

  /** Trimming a string whose ends are not whitespace leaves it unchanged; in particular
      trimming twice is trimming once. */
  lemma TrimTrimmed(s: string)
    requires IsTrimmed(s)
    ensures Trim(s) == s
  {
    assert TrimStart(s) == s;
  }

  lemma TrimIdempotent(s: string)
    ensures Trim(Trim(s)) == Trim(s)
  {
    TrimSpec(s);
    TrimTrimmed(Trim(s));
  }

  // ---------------------------------------------------------------------------
  // split(",") and the tag list
  // ---------------------------------------------------------------------------

  /** `s.split(",")`: the pieces between commas, always at least one ("" for ""). */
  function Split(s: string): (pieces: seq<string>)
    ensures |pieces| >= 1
    ensures forall i :: 0 <= i < |pieces| ==> ',' !in pieces[i]
  {
    if |s| == 0 then [""]
    else
      var rest := Split(s[1..]);
      if s[0] == ',' then [""] + rest
      else [[s[0]] + rest[0]] + rest[1..]
  }

  /** `pieces.join(",")`, the inverse of `Split`. */
  function Join(pieces: seq<string>): string
  {
    if |pieces| == 0 then ""
    else if |pieces| == 1 then pieces[0]
    else pieces[0] + "," + Join(pieces[1..])
  }

  /** Joining the pieces with commas gives back the original string. */
  lemma {:induction false} JoinSplit(s: string)
    ensures Join(Split(s)) == s
  {
    if |s| > 0 {
      var rest := Split(s[1..]);
      JoinSplit(s[1..]);
      if s[0] != ',' {
        if |rest| == 1 {
          assert Split(s) == [[s[0]] + rest[0]];
        } else {
          assert Split(s)[1..] == rest[1..];
        }
      }
      assert s == [s[0]] + s[1..];
    }
  }

  /** Splitting at a comma splits the two sides separately: pieces keep their order. */
  lemma {:induction false} SplitAtComma(a: string, b: string)
    ensures Split(a + "," + b) == Split(a) + Split(b)
  {
    if |a| == 0 {
      assert a + "," + b == "," + b;
      assert ("," + b)[1..] == b;
    } else {
      var s := a + "," + b;
      assert s[0] == a[0] && s[1..] == a[1..] + "," + b;
      SplitAtComma(a[1..], b);
    }
  }

  /** A string without commas is a single piece. */
  lemma {:induction false} SplitCommaFree(p: string)
    requires ',' !in p
    ensures Split(p) == [p]
  {
    if |p| > 0 {
      SplitCommaFree(p[1..]);
      assert p == [p[0]] + p[1..];
    }
  }

  /** Splitting comma-free pieces joined with commas gives the pieces back. */
  lemma {:induction false} SplitJoin(pieces: seq<string>)
    requires |pieces| >= 1
    requires forall i :: 0 <= i < |pieces| ==> ',' !in pieces[i]
    ensures Split(Join(pieces)) == pieces
  {
    SplitCommaFree(pieces[0]);
    if |pieces| > 1 {
      SplitJoin(pieces[1..]);
      SplitAtComma(pieces[0], Join(pieces[1..]));
      assert pieces == [pieces[0]] + pieces[1..];
    }
  }

  /** `.filter(Boolean)` on strings: drops the empty ones and keeps the order of the rest. */
  function DropEmpty(pieces: seq<string>): (kept: seq<string>)
    ensures |kept| <= |pieces|
    ensures forall i :: 0 <= i < |kept| ==> kept[i] != ""
  {
    if |pieces| == 0 then []
    else (if pieces[0] == "" then [] else [pieces[0]]) + DropEmpty(pieces[1..])
  }

  lemma {:induction false} DropEmptyConcat(a: seq<string>, b: seq<string>)
    ensures DropEmpty(a + b) == DropEmpty(a) + DropEmpty(b)
  {
    if |a| > 0 {
      assert (a + b)[1..] == a[1..] + b;
      DropEmptyConcat(a[1..], b);
    } else {
      assert a + b == b;
    }
  }

  /** `.map((t) => t.trim())` */
  function TrimEach(pieces: seq<string>): seq<string>
  {
    if |pieces| == 0 then [] else [Trim(pieces[0])] + TrimEach(pieces[1..])
  }

  /** Piece i of the result is piece i trimmed. */
  lemma {:induction false} TrimEachSpec(pieces: seq<string>)
    ensures |TrimEach(pieces)| == |pieces|
    ensures forall i :: 0 <= i < |pieces| ==> TrimEach(pieces)[i] == Trim(pieces[i])
  {
    if |pieces| > 0 {
      TrimEachSpec(pieces[1..]);
    }
  }

  lemma {:induction false} TrimEachConcat(a: seq<string>, b: seq<string>)
    ensures TrimEach(a + b) == TrimEach(a) + TrimEach(b)
  {
    if |a| > 0 {
      assert (a + b)[1..] == a[1..] + b;
      TrimEachConcat(a[1..], b);
    } else {
      assert a + b == b;
    }
  }

  /** Trimmed comma-free pieces are trimmed and comma-free. */
  lemma TrimEachClean(pieces: seq<string>)
    requires forall i :: 0 <= i < |pieces| ==> ',' !in pieces[i]
    ensures |TrimEach(pieces)| == |pieces|
    ensures forall i :: 0 <= i < |pieces| ==> IsTrimmed(TrimEach(pieces)[i]) && ',' !in TrimEach(pieces)[i]
  {
    var trimmed := TrimEach(pieces);
    TrimEachSpec(pieces);
    forall i | 0 <= i < |pieces|
      ensures IsTrimmed(trimmed[i]) && ',' !in trimmed[i]
    {
      TrimSpec(pieces[i]);
      TrimKeepsCommaFree(pieces[i]);
    }
  }

  /** A tag the composer can produce: non-empty, no whitespace at either end, no comma. */
  predicate IsCleanTag(tag: string)
  {
    tag != "" && IsTrimmed(tag) && ',' !in tag
  }

  /** The tag field of a draft note turned into the annotation's tag list: at most one tag
      per comma-separated piece. */
  function ParseTags(field: string): (tags: seq<string>)
    ensures |tags| <= |Split(field)|
  {
    TrimEachSpec(Split(field));
    DropEmpty(TrimEach(Split(field)))
  }

  /** Every parsed tag is clean. */
  lemma ParseTagsClean(field: string)
    ensures forall i :: 0 <= i < |ParseTags(field)| ==> IsCleanTag(ParseTags(field)[i])
  {
    TrimEachClean(Split(field));
    DropEmptyClean(TrimEach(Split(field)));
  }

  /** Dropping the empty pieces of trimmed comma-free pieces leaves clean tags. */
  lemma {:induction false} DropEmptyClean(trimmed: seq<string>)
    requires forall i :: 0 <= i < |trimmed| ==> IsTrimmed(trimmed[i]) && ',' !in trimmed[i]
    ensures forall i :: 0 <= i < |DropEmpty(trimmed)| ==> IsCleanTag(DropEmpty(trimmed)[i])
  {
    if |trimmed| > 0 {
      DropEmptyClean(trimmed[1..]);
    }
  }

  lemma TrimKeepsCommaFree(s: string)
    requires ',' !in s
    ensures ',' !in Trim(s)
  {
    var r := Trim(s);
    TrimSpec(s);
    var i :| IsInfixAmidWhitespace(s, r, i);
    assert forall k :: 0 <= k < |r| ==> r[k] == s[i + k];
  }

  /** Tags on the two sides of a comma are parsed separately, in field order. */
  lemma ParseTagsAtComma(a: string, b: string)
    ensures ParseTags(a + "," + b) == ParseTags(a) + ParseTags(b)
  {
    SplitAtComma(a, b);
    TrimEachConcat(Split(a), Split(b));
    DropEmptyConcat(TrimEach(Split(a)), TrimEach(Split(b)));
  }

  /** Clean tags written into the field joined by commas are parsed back as they were. */
  lemma {:induction false} ParseTagsJoin(tags: seq<string>)
    requires forall i :: 0 <= i < |tags| ==> IsCleanTag(tags[i])
    ensures ParseTags(Join(tags)) == tags
  {
    if |tags| == 0 {
      assert Split("") == [""];
      assert TrimEach([""]) == [Trim("")];
    } else {
      SingleTag(tags[0]);
      if |tags| > 1 {
        ParseTagsJoin(tags[1..]);
        ParseTagsAtComma(tags[0], Join(tags[1..]));
        assert tags == [tags[0]] + tags[1..];
      }
    }
  }

  lemma SingleTag(tag: string)
    requires IsCleanTag(tag)
    ensures ParseTags(tag) == [tag]
  {
    SplitCommaFree(tag);
    TrimTrimmed(tag);
    assert TrimEach([tag]) == [tag];
  }
}
