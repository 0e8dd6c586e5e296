/**
 * Dotted IPv4 address strings: JavaScript's `split('.')` / `join('.')`, the
 * decimal form of a number in a template literal, the subnet prefix taken from
 * the local address (first three fields) and the host id (last field).
 */
module Addresses {
  import opened Wrappers

  const Dot: char := '.'

  /** JavaScript's `s.split(sep)` for a one-character separator; never empty. */
  function Split(s: string, sep: char): (fields: seq<string>)
    ensures |fields| >= 1
    ensures forall i :: 0 <= i < |fields| ==> sep !in fields[i]
  {
    if |s| == 0 then [""]
    else
      var rest := Split(s[1..], sep);
      if s[0] == sep then [""] + rest else [[s[0]] + rest[0]] + rest[1..]
  }

  /** JavaScript's `fields.join(sep)`. */
  function Join(fields: seq<string>, sep: char): string
  {
    if |fields| == 0 then ""
    else if |fields| == 1 then fields[0]
    else fields[0] + [sep] + Join(fields[1..], sep)
  }

  /** JavaScript's `fields.slice(0, n)`. */
  function Take<T>(fields: seq<T>, n: nat): seq<T>
  {
    if |fields| <= n then fields else fields[..n]
  }

  /** The subnet of a local address: `address.split('.').slice(0, 3).join('.')`. */
  function SubnetPrefix(address: string): string
  {
    Join(Take(Split(address, Dot), 3), Dot)
  }

  predicate IsDigit(c: char)
  {
    '0' <= c <= '9'
  }

  predicate IsDecimal(s: string)
  {
    |s| >= 1 && forall i :: 0 <= i < |s| ==> IsDigit(s[i])
  }

  function DigitChar(d: nat): (c: char)
    requires d < 10
    ensures IsDigit(c)
  {
    (('0' as int) + d) as char
  }

  function DigitValue(c: char): nat
    requires IsDigit(c)
  {
    (c as int) - ('0' as int)
  }

  /** The decimal text of a non-negative integer, as `${n}` writes it (no leading zeros). */
  function Decimal(n: nat): (s: string)
    ensures IsDecimal(s)
    ensures Dot !in s
  {
    if n < 10 then [DigitChar(n)] else Decimal(n / 10) + [DigitChar(n % 10)]
  }

  /** Reads a string of decimal digits back as a number. */
  function ParseDecimal(s: string): nat
    requires IsDecimal(s)
  {
    if |s| == 1 then DigitValue(s[0])
    else ParseDecimal(s[..|s| - 1]) * 10 + DigitValue(s[|s| - 1])
  }

  /** The host id of an address: its last dotted field read as a decimal number. */
  function HostId(address: string): Option<nat>
  {
    var fields := Split(address, Dot);
    var last := fields[|fields| - 1];
    if IsDecimal(last) then Some(ParseDecimal(last)) else None
  }

  lemma {:induction false} ParseDecimalOfDecimal(n: nat)
    ensures ParseDecimal(Decimal(n)) == n
  {
    if n >= 10 {
      var s := Decimal(n);
      assert s[..|s| - 1] == Decimal(n / 10);
      ParseDecimalOfDecimal(n / 10);
    }
  }

  lemma {:induction false} SplitWithoutSeparator(s: string, sep: char)
    requires sep !in s
    ensures Split(s, sep) == [s]
  {
    if |s| > 0 {
      SplitWithoutSeparator(s[1..], sep);
      assert [s[0]] + s[1..] == s;
    }
  }

  /** Splitting at a separator splits the two halves independently. */
  lemma {:induction false} SplitAppend(a: string, b: string, sep: char)
    ensures Split(a + [sep] + b, sep) == Split(a, sep) + Split(b, sep)
  {
    var s := a + [sep] + b;
    if |a| == 0 {
      assert s == [sep] + b && s[1..] == b;
    } else {
      assert s[0] == a[0] && s[1..] == a[1..] + [sep] + b;
      SplitAppend(a[1..], b, sep);
    }
  }

  /** `split` and `join` undo each other: joining the fields gives the string back. */
  lemma {:induction false} JoinSplit(s: string, sep: char)
    ensures Join(Split(s, sep), sep) == s
  {
    if |s| > 0 {
      JoinSplit(s[1..], sep);
      var rest := Split(s[1..], sep);
      if s[0] == sep {
        assert ([""] + rest)[1..] == rest;
      } else {
        var fields := [[s[0]] + rest[0]] + rest[1..];
        if |rest| > 1 {
          assert fields[1..] == rest[1..];
          assert Join(rest, sep) == rest[0] + [sep] + Join(rest[1..], sep);
        }
      }
    }
  }

  /** and, for fields without the separator, splitting the joined string gives the fields back. */
  lemma {:induction false} SplitJoin(fields: seq<string>, sep: char)
    requires |fields| >= 1
    requires forall i :: 0 <= i < |fields| ==> sep !in fields[i]
    ensures Split(Join(fields, sep), sep) == fields
  {
    if |fields| == 1 {
      SplitWithoutSeparator(fields[0], sep);
    } else {
      SplitWithoutSeparator(fields[0], sep);
      SplitJoin(fields[1..], sep);
      SplitAppend(fields[0], Join(fields[1..], sep), sep);
      assert fields == [fields[0]] + fields[1..];
    }
  }

  lemma {:induction false} JoinPrefix(fields: seq<string>, n: nat, sep: char)
    requires 1 <= n <= |fields|
    ensures Join(fields[..n], sep) <= Join(fields, sep)
  {
    if n > 1 {
      JoinPrefix(fields[1..], n - 1, sep);
      assert fields[..n][1..] == fields[1..][..n - 1];
    }
  }

  /**
   * The subnet prefix is an initial part of the address and consists exactly
   * of its first three dotted fields (all of them when there are fewer).
   */
  lemma SubnetPrefixFields(address: string)
    ensures SubnetPrefix(address) <= address
    ensures Split(SubnetPrefix(address), Dot) == Take(Split(address, Dot), 3)
  {
    var fields := Split(address, Dot);
    JoinSplit(address, Dot);
    if |fields| > 3 {
      JoinPrefix(fields, 3, Dot);
    }
    SplitJoin(Take(fields, 3), Dot);
  }
}
