/** The text shown by the status panel (src/ui/UI.js): thousands
    separators for numbers and the connection, firewall and integrity
    readouts. */
module StatusPanel {
  import Logic

  predicate IsDigit(c: char) {
    '0' <= c <= '9'
  }

  predicate AllDigits(s: string) {
    forall i :: 0 <= i < |s| ==> IsDigit(s[i])
  }

  function DigitChar(d: int): (c: char)
    requires 0 <= d < 10
    ensures IsDigit(c)
  {
    ('0' as int + d) as char
  }

  /** The decimal digits of n, most significant first, without leading zeros. */
  function DecimalString(n: nat): (s: string)
    ensures |s| >= 1 && AllDigits(s)
    ensures n >= 10 ==> s[0] != '0'
  {
    if n < 10 then [DigitChar(n)] else DecimalString(n / 10) + [DigitChar(n % 10)]
  }

  /** The value a digit string denotes. */
  function DigitsValue(s: string): int
    requires AllDigits(s)
  {
    if s == [] then 0 else DigitsValue(s[..|s| - 1]) * 10 + (s[|s| - 1] as int - '0' as int)
  }

  /** DecimalString is the inverse of reading the digits back. */
  lemma {:induction false} DecimalStringValue(n: nat)
    ensures DigitsValue(DecimalString(n)) == n
  {
    if n >= 10 {
      DecimalStringValue(n / 10);
      var s := DecimalString(n);
      assert s[..|s| - 1] == DecimalString(n / 10);
    }
  }

  /** The separator regular expression matches before index i of a digit
      string: i is not at either end (not a word boundary) and a positive
      multiple of three digits follows up to the end. */
  predicate CommaBefore(s: string, i: int) {
    0 < i < |s| && (|s| - i) % 3 == 0
  }

  /** The output from index i on: each digit, preceded by a comma where the
      expression matches. */
  function InsertCommasFrom(s: string, i: nat): string
    requires i <= |s|
    decreases |s| - i
  {
    if i == |s| then [] else (if CommaBefore(s, i) then [','] else []) + [s[i]] + InsertCommasFrom(s, i + 1)
  }

  function InsertCommas(s: string): string {
    InsertCommasFrom(s, 0)
  }

  /** num.toString() with ',' inserted before every group of three digits
      counted from the right: one to three leading digits, then groups of
      exactly three, each after a comma. */
  function FormatNumber(n: nat): (r: string)
    ensures Grouped(r)
  {
    InsertCommasGrouped(DecimalString(n));
    InsertCommas(DecimalString(n))
  }

  function StripCommas(t: string): string {
    if t == [] then [] else (if t[0] == ',' then [] else [t[0]]) + StripCommas(t[1..])
  }

  lemma {:induction false} StripCommasAppend(a: string, b: string)
    ensures StripCommas(a + b) == StripCommas(a) + StripCommas(b)
  {
    if a != [] {
      assert (a + b)[1..] == a[1..] + b;
      StripCommasAppend(a[1..], b);
    } else {
      assert a + b == b;
    }
  }

  lemma {:induction false} StripInsertFrom(s: string, i: nat)
    requires i <= |s| && AllDigits(s)
    ensures StripCommas(InsertCommasFrom(s, i)) == s[i..]
    decreases |s| - i
  {
    if i < |s| {
      StripInsertFrom(s, i + 1);
      var sep: string := if CommaBefore(s, i) then [','] else [];
      var rest := InsertCommasFrom(s, i + 1);
      assert InsertCommasFrom(s, i) == sep + [s[i]] + rest;
      StripCommasAppend(sep + [s[i]], rest);
      StripCommasAppend(sep, [s[i]]);
      assert StripCommas(sep) == [] by {
        assert [','][1..] == [];
      }
      assert StripCommas([s[i]]) == [s[i]] by {
        assert [s[i]][1..] == [];
      }
      assert s[i..] == [s[i]] + s[i + 1..];
    }
  }

  /** Removing the separators from FormatNumber(n) gives n's decimal string. */
  lemma FormatNumberStrips(n: nat)
    ensures StripCommas(FormatNumber(n)) == DecimalString(n)
  {
    StripInsertFrom(DecimalString(n), 0);
  }

  /** Grouping as printed: one to three digits, then groups of exactly
      three digits, each preceded by a comma. */
  predicate Grouped(t: string)
    decreases |t|
  {
    (1 <= |t| <= 3 && AllDigits(t))
    || (|t| > 4 && t[|t| - 4] == ',' && AllDigits(t[|t| - 3..]) && Grouped(t[..|t| - 4]))
  }

  /** Dropping the last three digits of a string longer than three removes
      the last group of the output. */
  lemma {:induction false} InsertCommasFromPrefix(s: string, i: nat)
    requires |s| > 3 && i <= |s| - 3
    ensures InsertCommasFrom(s, i) == InsertCommasFrom(s[..|s| - 3], i) + [','] + s[|s| - 3..]
    decreases |s| - i
  {
    var p := s[..|s| - 3];
    if i == |s| - 3 {
      InsertLastGroup(s);
      assert InsertCommasFrom(p, i) == [];
    } else {
      InsertCommasFromPrefix(s, i + 1);
      PrefixStep(s, i);
    }
  }

  /** The last three digits of a string longer than three come out as one
      comma-led group. */
  lemma InsertLastGroup(s: string)
    requires |s| > 3
    ensures InsertCommasFrom(s, |s| - 3) == [','] + s[|s| - 3..]
  {
    var n := |s|;
    ShortTail(s, n - 2);
    assert CommaBefore(s, n - 3);
    assert s[n - 3..] == [s[n - 3]] + s[n - 2..];
  }

  /** Fewer than three trailing digits get no comma. */
  lemma {:induction false} ShortTail(s: string, i: nat)
    requires |s| - 3 < i <= |s|
    ensures InsertCommasFrom(s, i) == s[i..]
    decreases |s| - i
  {
    if i < |s| {
      ShortTail(s, i + 1);
      assert !CommaBefore(s, i);
      assert s[i..] == [s[i]] + s[i + 1..];
    }
  }

  lemma ModShift(m: int)
    ensures (m + 3) % 3 == m % 3
  {
  }

  /** The separator before index i is the same for s and for s without its
      last three digits. */
  lemma SameSeparator(s: string, i: nat)
    requires |s| > 3 && i < |s| - 3
    ensures CommaBefore(s, i) == CommaBefore(s[..|s| - 3], i)
  {
    ModShift(|s| - 3 - i);
  }

  /** One step of InsertCommasFromPrefix: the same separator and digit come
      first in both outputs. */
  lemma PrefixStep(s: string, i: nat)
    requires |s| > 3 && i < |s| - 3
    requires InsertCommasFrom(s, i + 1) == InsertCommasFrom(s[..|s| - 3], i + 1) + [','] + s[|s| - 3..]
    ensures InsertCommasFrom(s, i) == InsertCommasFrom(s[..|s| - 3], i) + [','] + s[|s| - 3..]
  {
    var p, tail := s[..|s| - 3], s[|s| - 3..];
    SameSeparator(s, i);
    var head: string := (if CommaBefore(s, i) then [','] else []) + [s[i]];
    assert p[i] == s[i];
    var q := InsertCommasFrom(p, i + 1);
    assert InsertCommasFrom(s, i) == head + (q + [','] + tail);
    assert InsertCommasFrom(p, i) == head + q;
    AppendAssoc(head, q + [','], tail);
    AppendAssoc(head, q, [',']);
  }

  lemma AppendAssoc(a: string, b: string, c: string)
    ensures a + (b + c) == (a + b) + c
  {
  }

  lemma {:induction false} InsertCommasGrouped(s: string)
    requires |s| >= 1 && AllDigits(s)
    ensures Grouped(InsertCommas(s))
    decreases |s|
  {
    var t := InsertCommas(s);
    if |s| <= 3 {
      ShortUnchanged(s);
    } else {
      var p := s[..|s| - 3];
      InsertCommasFromPrefix(s, 0);
      InsertCommasGrouped(p);
      var q := InsertCommas(p);
      assert t == q + [','] + s[|s| - 3..];
      assert t[..|t| - 4] == q;
      assert t[|t| - 3..] == s[|s| - 3..];
    }
  }

  lemma {:induction false} ShortUnchangedFrom(s: string, i: nat)
    requires |s| <= 3 && i <= |s|
    ensures InsertCommasFrom(s, i) == s[i..]
    decreases |s| - i
  {
    if i < |s| {
      ShortUnchangedFrom(s, i + 1);
      assert s[i..] == [s[i]] + s[i + 1..];
    }
  }

  lemma ShortUnchanged(s: string)
    requires |s| <= 3
    ensures InsertCommas(s) == s
  {
    ShortUnchangedFrom(s, 0);
  }

  /** Numbers below 1000 are printed unchanged, numbers from 1000 on get a
      comma. */
  lemma FormatNumberShort(n: nat)
    ensures n < 1000 ==> FormatNumber(n) == DecimalString(n)
    ensures n >= 1000 ==> ',' in FormatNumber(n)
  {
    DecimalStringLength(n);
    if n < 1000 {
      ShortUnchanged(DecimalString(n));
    } else {
      InsertCommasFromLength(DecimalString(n), 0);
      var r := FormatNumber(n);
      assert r[|r| - 4] == ',';
    }
  }

  lemma {:induction false} InsertCommasFromLength(s: string, i: nat)
    requires i <= |s|
    ensures |InsertCommasFrom(s, i)| >= |s| - i
    decreases |s| - i
  {
    if i < |s| {
      InsertCommasFromLength(s, i + 1);
    }
  }

  lemma {:induction false} DecimalStringLength(n: nat)
    ensures n < 1000 ==> |DecimalString(n)| <= 3
    ensures n >= 10 ==> |DecimalString(n)| >= 2
    ensures n >= 100 ==> |DecimalString(n)| >= 3
    ensures n >= 1000 ==> |DecimalString(n)| >= 4
  {
    if n >= 10 {
      DecimalStringLength(n / 10);
      if n < 100 {
        assert n / 10 < 10;
      }
    }
  }

  // ---------------------------------------------------------------------
  // Status readouts

  /** The connection readout: unstable above level 5. */
  function ConnectionStatus(level: int): (r: string)
    ensures r == "UNSTABLE" || r == "STABLE"
  {
    if level > 5 then "UNSTABLE" else "STABLE"
  }

  /** The firewall readout; the same test as the one that starts the challenge. */
  function FirewallStatus(level: int): (r: string)
    ensures r == "CHALLENGE" || r == "ACTIVE"
  {
    if level % 10 == 0 && level > 0 then "CHALLENGE" else "ACTIVE"
  }

  /** The integrity percentage: 2 points lost per level, never below 50. */
  function Integrity(level: int): (r: int)
    ensures level >= 0 ==> 50 <= r <= 100
    ensures r == 50 <==> level >= 25
  {
    if 100 - level * 2 >= 50 then 100 - level * 2 else 50
  }

  /** The panel shows CHALLENGE exactly on the levels where the firewall
      starts, and UNSTABLE exactly above level 5. */
  lemma StatusLabels(level: int)
    ensures FirewallStatus(level) == "CHALLENGE" <==> Logic.IsFirewallLevel(level)
    ensures ConnectionStatus(level) == "UNSTABLE" <==> level > 5
  {
    assert "ACTIVE" != "CHALLENGE";
    assert "STABLE" != "UNSTABLE";
  }
}
