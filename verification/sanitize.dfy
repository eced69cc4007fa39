/** The tax-field sanitiser of the client script
    (includes/js/production-logic.js, `sanitize`): keeps digits and one
    decimal separator, turning the first comma into a dot. */
module Sanitize {
  import opened Wrappers
  import opened Text

  /** `String.replace` with a one-character string pattern: only the first
      occurrence is replaced. */
  function ReplaceFirst(s: string, a: char, b: char): (r: string)
    ensures |r| == |s|
  {
    if |s| == 0 then s
    else if s[0] == a then [b] + s[1..]
    else [s[0]] + ReplaceFirst(s[1..], a, b)
  }

  /** `replace(/[^\d.]/g, '')`. */
  function KeepDigitsAndDots(s: string): (r: string)
    ensures forall i :: 0 <= i < |r| ==> IsDigit(r[i]) || r[i] == '.'
  {
    if |s| == 0 then []
    else if IsDigit(s[0]) || s[0] == '.' then [s[0]] + KeepDigitsAndDots(s[1..])
    else KeepDigitsAndDots(s[1..])
  }

  /** `replace(/\./g, '')`. */
  function RemoveDots(s: string): (r: string)
    ensures forall i :: 0 <= i < |r| ==> r[i] != '.' && r[i] in s
  {
    if |s| == 0 then []
    else if s[0] == '.' then RemoveDots(s[1..])
    else [s[0]] + RemoveDots(s[1..])
  }

  /** `indexOf(c)`, None for -1. */
  function IndexOf(s: string, c: char): (r: Option<nat>)
    ensures r.Some? ==> r.value < |s| && s[r.value] == c
    ensures forall k :: 0 <= k < |s| && (r.None? || k < r.value) ==> s[k] != c
  {
    if |s| == 0 then None
    else if s[0] == c then Some(0)
    else match IndexOf(s[1..], c)
      case None => None
      case Some(k) => Some(k + 1)
  }

  function StripLeadingMinus(s: string): string {
    if |s| > 0 && s[0] == '-' then StripLeadingMinus(s[1..]) else s
  }

  function CountChar(s: string, c: char): nat {
    if |s| == 0 then 0 else (if s[0] == c then 1 else 0) + CountChar(s[1..], c)
  }

  /** Keep the first dot and drop every later one. */
  function KeepFirstDot(v: string): string {
    match IndexOf(v, '.')
    case None => v
    case Some(d) => v[..d + 1] + RemoveDots(v[d + 1..])
  }

  /** `".5"` becomes `"0.5"`. */
  function LeadingZero(v: string): string {
    if |v| > 0 && v[0] == '.' then "0" + v else v
  }

  /** The sanitiser step by step, in the order the script applies its
      replacements; None stands for a null or undefined argument. */
  function Sanitize(raw: Option<string>): (r: string)
    ensures forall i :: 0 <= i < |r| ==> IsDigit(r[i]) || r[i] == '.'
    ensures CountChar(r, '.') <= 1
    ensures |r| > 0 ==> r[0] != '.'
  {
    if raw.None? then ""
    else
      var r := StripLeadingMinus(LeadingZero(KeepFirstDot(KeepDigitsAndDots(ReplaceFirst(raw.value, ',', '.')))));
      SanitizeShape(raw.value);
      SpecShape(raw.value);
      r
  }

  /** The decimal digits of `s`, in order. */
  function Digits(s: string): (r: string)
    ensures forall i :: 0 <= i < |r| ==> IsDigit(r[i])
  {
    if |s| == 0 then []
    else if IsDigit(s[0]) then [s[0]] + Digits(s[1..])
    else Digits(s[1..])
  }

  predicate IsSeparator(c: char) {
    c == '.' || c == ','
  }

  /** Position of the first '.' or ','. */
  function FirstSeparator(s: string): (r: Option<nat>)
    ensures r.Some? ==> r.value < |s| && IsSeparator(s[r.value])
    ensures forall k :: 0 <= k < |s| && (r.None? || k < r.value) ==> !IsSeparator(s[k])
  {
    if |s| == 0 then None
    else if IsSeparator(s[0]) then Some(0)
    else match FirstSeparator(s[1..])
      case None => None
      case Some(k) => Some(k + 1)
  }

  /** What the sanitiser means, independently of how it is computed: the
      digits before the first separator (or "0" when there are none), then a
      dot and every later digit when a separator exists at all. */
  function SanitizeSpec(s: string): string {
    match FirstSeparator(s)
    case None => Digits(s)
    case Some(k) =>
      var whole := Digits(s[..k]);
      (if |whole| == 0 then "0" else whole) + "." + Digits(s[k + 1..])
  }

  // ---- lemmas about the individual passes ----

  lemma DigitsAppend(a: string, b: string)
    ensures Digits(a + b) == Digits(a) + Digits(b)
  {
    if |a| > 0 {
      assert (a + b)[1..] == a[1..] + b;
      DigitsAppend(a[1..], b);
    } else {
      assert a + b == b;
    }
  }

  lemma KeepAppend(a: string, b: string)
    ensures KeepDigitsAndDots(a + b) == KeepDigitsAndDots(a) + KeepDigitsAndDots(b)
  {
    if |a| > 0 {
      assert (a + b)[1..] == a[1..] + b;
      KeepAppend(a[1..], b);
    } else {
      assert a + b == b;
    }
  }

  lemma RemoveDotsOfKeep(s: string)
    ensures RemoveDots(KeepDigitsAndDots(s)) == Digits(s)
  {
    if |s| > 0 {
      RemoveDotsOfKeep(s[1..]);
    }
  }

  lemma KeepWithoutSeparators(s: string)
    requires forall k :: 0 <= k < |s| ==> !IsSeparator(s[k])
    ensures KeepDigitsAndDots(s) == Digits(s)
  {
    if |s| > 0 {
      KeepWithoutSeparators(s[1..]);
    }
  }

  lemma ReplaceFirstWithoutComma(s: string)
    requires forall k :: 0 <= k < |s| ==> s[k] != ','
    ensures ReplaceFirst(s, ',', '.') == s
  {
    if |s| > 0 {
      ReplaceFirstWithoutComma(s[1..]);
    }
  }

  lemma DigitsOfReplaceFirst(s: string)
    ensures Digits(ReplaceFirst(s, ',', '.')) == Digits(s)
  {
    if |s| > 0 && s[0] != ',' {
      DigitsOfReplaceFirst(s[1..]);
    }
  }

  lemma DigitsOfDigits(s: string)
    requires forall k :: 0 <= k < |s| ==> IsDigit(s[k])
    ensures Digits(s) == s
  {
    if |s| > 0 {
      DigitsOfDigits(s[1..]);
    }
  }

  lemma StripWithoutMinus(s: string)
    requires |s| == 0 || s[0] != '-'
    ensures StripLeadingMinus(s) == s
  {
  }

  lemma CountAppend(a: string, b: string, c: char)
    ensures CountChar(a + b, c) == CountChar(a, c) + CountChar(b, c)
  {
    if |a| > 0 {
      assert (a + b)[1..] == a[1..] + b;
      CountAppend(a[1..], b, c);
    } else {
      assert a + b == b;
    }
  }

  lemma CountAbsent(s: string, c: char)
    requires forall k :: 0 <= k < |s| ==> s[k] != c
    ensures CountChar(s, c) == 0
  {
    if |s| > 0 {
      CountAbsent(s[1..], c);
    }
  }

  /** The replacement passes compute the reference definition. */
  lemma {:induction false} SanitizeShape(s: string)
    ensures StripLeadingMinus(LeadingZero(KeepFirstDot(KeepDigitsAndDots(ReplaceFirst(s, ',', '.')))))
         == SanitizeSpec(s)
  {
    match FirstSeparator(s)
    case None => ShapeWithoutSeparator(s);
    case Some(k) => ShapeWithSeparator(s, k);
  }

  lemma {:induction false} ShapeWithoutSeparator(s: string)
    requires FirstSeparator(s).None?
    ensures StripLeadingMinus(LeadingZero(KeepFirstDot(KeepDigitsAndDots(ReplaceFirst(s, ',', '.')))))
         == Digits(s)
  {
    ReplaceFirstWithoutComma(s);
    KeepWithoutSeparators(s);
    var d := Digits(s);
    assert IndexOf(d, '.').None? by {
      forall k | 0 <= k < |d| ensures d[k] != '.' {
        assert IsDigit(d[k]);
      }
    }
    if |d| > 0 {
      assert IsDigit(d[0]);
    }
    StripWithoutMinus(d);
  }

  lemma {:induction false} ShapeWithSeparator(s: string, k: nat)
    requires FirstSeparator(s) == Some(k)
    ensures StripLeadingMinus(LeadingZero(KeepFirstDot(KeepDigitsAndDots(ReplaceFirst(s, ',', '.')))))
         == (if |Digits(s[..k])| == 0 then "0" else Digits(s[..k])) + "." + Digits(s[k + 1..])
  {
    var pre := s[..k];
    var post := s[k + 1..];
    assert s == pre + [s[k]] + post;
    var post' := if s[k] == ',' then post else ReplaceFirst(post, ',', '.');
    ReplaceFirstSplit(pre, s[k], post);
    KeepAfterPlainPrefix(pre, post');
    var whole := Digits(pre);
    FirstDotAfterDigits(whole, post');
    DigitsOfReplaceFirst(post);
    LeadingZeroOfDecimal(whole, Digits(post));
  }

  lemma {:induction false} KeepAfterPlainPrefix(pre: string, post: string)
    requires forall k :: 0 <= k < |pre| ==> !IsSeparator(pre[k])
    ensures KeepDigitsAndDots(pre + "." + post) == Digits(pre) + "." + KeepDigitsAndDots(post)
  {
    KeepWithoutSeparators(pre);
    assert pre + "." + post == pre + ("." + post);
    KeepAppend(pre, "." + post);
    KeepAppend(".", post);
    assert KeepDigitsAndDots(".") == ".";
  }

  lemma {:induction false} FirstDotAfterDigits(whole: string, post: string)
    requires forall k :: 0 <= k < |whole| ==> IsDigit(whole[k])
    ensures KeepFirstDot(whole + "." + KeepDigitsAndDots(post)) == whole + "." + Digits(post)
  {
    var v := whole + "." + KeepDigitsAndDots(post);
    IndexOfAfterDigits(whole, KeepDigitsAndDots(post));
    assert v[..|whole| + 1] == whole + ".";
    assert v[|whole| + 1..] == KeepDigitsAndDots(post);
    RemoveDotsOfKeep(post);
  }

  lemma {:induction false} LeadingZeroOfDecimal(whole: string, frac: string)
    requires forall k :: 0 <= k < |whole| ==> IsDigit(whole[k])
    ensures StripLeadingMinus(LeadingZero(whole + "." + frac))
         == (if |whole| == 0 then "0" else whole) + "." + frac
  {
    var v3 := whole + "." + frac;
    var v4 := LeadingZero(v3);
    if |whole| == 0 {
      assert v3[0] == '.';
      assert v4 == "0" + "." + frac;
    } else {
      assert IsDigit(whole[0]);
      assert v3[0] == whole[0];
    }
    assert v4[0] != '-';
    StripWithoutMinus(v4);
  }

  lemma {:induction false} ReplaceFirstSplit(pre: string, c: char, post: string)
    requires forall k :: 0 <= k < |pre| ==> !IsSeparator(pre[k])
    requires IsSeparator(c)
    ensures ReplaceFirst(pre + [c] + post, ',', '.')
         == pre + "." + (if c == ',' then post else ReplaceFirst(post, ',', '.'))
  {
    var whole := pre + [c] + post;
    if |pre| > 0 {
      assert whole[0] == pre[0] && pre[0] != ',';
      assert whole[1..] == pre[1..] + [c] + post;
      ReplaceFirstSplit(pre[1..], c, post);
      assert pre == [pre[0]] + pre[1..];
    } else {
      assert whole == [c] + post;
      assert whole[1..] == post;
    }
  }

  lemma IndexOfAfterDigits(whole: string, rest: string)
    requires forall k :: 0 <= k < |whole| ==> IsDigit(whole[k])
    ensures IndexOf(whole + "." + rest, '.') == Some(|whole|)
  {
    if |whole| > 0 {
      assert (whole + "." + rest)[1..] == whole[1..] + "." + rest;
      IndexOfAfterDigits(whole[1..], rest);
    }
  }

  /** The sanitiser agrees with its reference definition on every input. */
  lemma SanitizeMeaning(s: string)
    ensures Sanitize(Some(s)) == SanitizeSpec(s)
  {
    SanitizeShape(s);
  }

  /** The reference definition's shape: what the ensures of `Sanitize` says. */
  lemma SpecShape(s: string)
    ensures var r := SanitizeSpec(s);
            && (forall i :: 0 <= i < |r| ==> IsDigit(r[i]) || r[i] == '.')
            && CountChar(r, '.') <= 1
            && (|r| > 0 ==> r[0] != '.')
  {
    match FirstSeparator(s)
    case None =>
      var d := Digits(s);
      CountAbsent(d, '.');
      if |d| > 0 {
        assert IsDigit(d[0]);
      }
    case Some(k) =>
      var whole := Digits(s[..k]);
      var w := if |whole| == 0 then "0" else whole;
      var frac := Digits(s[k + 1..]);
      assert forall i :: 0 <= i < |w| ==> IsDigit(w[i]);
      CountAbsent(w, '.');
      CountAbsent(frac, '.');
      assert w + "." + frac == w + ("." + frac);
      CountAppend(w, "." + frac, '.');
      CountAppend(".", frac, '.');
      assert CountChar(".", '.') == 1;
      assert IsDigit(w[0]);
      assert (w + "." + frac)[0] == w[0];
  }

  /** The input handler writes the sanitised value back only when it differs;
      sanitising an already sanitised value changes nothing, so the handler
      settles after one pass. */
  lemma {:induction false} SanitizeIdempotent(raw: Option<string>)
    ensures Sanitize(Some(Sanitize(raw))) == Sanitize(raw)
  {
    var r := Sanitize(raw);
    SanitizeMeaning(r);
    if raw.Some? {
      var s := raw.value;
      SanitizeMeaning(s);
      match FirstSeparator(s)
      case None =>
        assert FirstSeparator(r).None?;
        DigitsOfDigits(r);
      case Some(k) =>
        var whole := Digits(s[..k]);
        DecimalIsFixed(if |whole| == 0 then "0" else whole, Digits(s[k + 1..]));
    }
  }

  /** A digit string, a dot and a digit string are their own reference value. */
  lemma {:induction false} DecimalIsFixed(w: string, frac: string)
    requires forall i :: 0 <= i < |w| ==> IsDigit(w[i])
    requires forall i :: 0 <= i < |frac| ==> IsDigit(frac[i])
    requires |w| > 0
    ensures SanitizeSpec(w + "." + frac) == w + "." + frac
  {
    var r := w + "." + frac;
    assert FirstSeparator(r) == Some(|w|) by {
      SeparatorAfterDigits(w, frac);
    }
    assert r[..|w|] == w;
    assert r[|w| + 1..] == frac;
    DigitsOfDigits(w);
    DigitsOfDigits(frac);
  }

  lemma SeparatorAfterDigits(whole: string, rest: string)
    requires forall k :: 0 <= k < |whole| ==> IsDigit(whole[k])
    ensures FirstSeparator(whole + "." + rest) == Some(|whole|)
  {
    if |whole| > 0 {
      assert (whole + "." + rest)[1..] == whole[1..] + "." + rest;
      SeparatorAfterDigits(whole[1..], rest);
    }
  }
}
