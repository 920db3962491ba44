// Ids for snapshots that are created without one: one more than the largest number among the ids taken.

module SnapIds {
  import opened Layout

  const INT_MAX: int := 0x7fff_ffff
  const ULONG_MAX: nat := 0xffff_ffff_ffff_ffff

  predicate IsSpace(c: char) { c == ' ' || 9 <= c as int <= 13 }

  predicate IsDigit(c: char) { '0' <= c <= '9' }

  function DigitOf(c: char): nat
    requires IsDigit(c)
  {
    c as int - '0' as int
  }

  function SkipSpace(s: string): string
  {
    if s != [] && IsSpace(s[0]) then SkipSpace(s[1..]) else s
  }

  // The number in the leading digits of s, after `acc`.
  function Digits(s: string, acc: nat): nat
  {
    if s != [] && IsDigit(s[0]) then Digits(s[1..], 10 * acc + DigitOf(s[0])) else acc
  }

  // strtoul(s, NULL, 10) with 64 bits: a value out of range is ULONG_MAX, a minus sign wraps around
  function StrToUl(s: string): nat
  {
    var t := SkipSpace(s);
    var signed := t != [] && (t[0] == '-' || t[0] == '+');
    var v := Digits(if signed then t[1..] else t, 0);
    if v > ULONG_MAX then ULONG_MAX
    else if v > 0 && signed && t[0] == '-' then ULONG_MAX + 1 - v
    else v
  }

  // The low 32 bits as an int.
  function ToInt(v: int): (r: int)
    ensures -INT_MAX - 1 <= r <= INT_MAX
  {
    var w := v % 0x1_0000_0000;
    if w <= INT_MAX then w else w - 0x1_0000_0000
  }

  // The largest number among the first n ids, at least 0.
  function MaxId(infos: seq<Info>, n: nat): (m: int)
    requires n <= |infos|
    ensures 0 <= m <= INT_MAX && forall k :: 0 <= k < n ==> ToInt(StrToUl(infos[k].id)) <= m
  {
    if n == 0 then 0
    else
      var m, id := MaxId(infos, n - 1), ToInt(StrToUl(infos[n - 1].id));
      if id > m then id else m
  }

  // "%d"
  function Decimal(n: nat): (s: string)
    ensures s != [] && forall i :: 0 <= i < |s| ==> IsDigit(s[i])
  {
    var d := ['0' + (n % 10) as char];
    if n < 10 then d else Decimal(n / 10) + d
  }

  function Print(n: int): string { if n < 0 then "-" + Decimal(-n) else Decimal(n) }

  // find_new_snapshot_id; the sum wraps around
  function NewId(infos: seq<Info>): string
  {
    Print(ToInt(MaxId(infos, |infos|) + 1))
  }

  // qcow_snapshot_create computes an id only if none is given.
  function Named(infos: seq<Info>, info: Info): Info
  {
    if info.id == "" then info.(id := NewId(infos)) else info
  }

  lemma {:induction false} DigitsMore(s: string, c: char, acc: nat)
    requires IsDigit(c) && forall i :: 0 <= i < |s| ==> IsDigit(s[i])
    ensures Digits(s + [c], acc) == 10 * Digits(s, acc) + DigitOf(c)
    decreases |s|
  {
    if s == [] {
      assert (s + [c])[1..] == [];
    } else {
      assert (s + [c])[1..] == s[1..] + [c];
      DigitsMore(s[1..], c, 10 * acc + DigitOf(s[0]));
    }
  }

  lemma {:induction false} DigitsDecimal(n: nat)
    ensures Digits(Decimal(n), 0) == n
  {
    var c := '0' + (n % 10) as char;
    if n < 10 {
      assert Decimal(n) == [] + [c];
      DigitsMore([], c, 0);
    } else {
      DigitsDecimal(n / 10);
      DigitsMore(Decimal(n / 10), c, 0);
    }
  }

  lemma ToIntSmall(n: int)
    requires 0 <= n <= INT_MAX
    ensures ToInt(n) == n
  {
  }

  // A printed number reads back as itself.
  lemma ReadPrint(n: nat)
    requires n <= INT_MAX
    ensures ToInt(StrToUl(Decimal(n))) == n
  {
    DigitsDecimal(n);
  }

  ghost predicate Taken(infos: seq<Info>, id: string)
  {
    exists k: nat :: k < |infos| && infos[k].id == id
  }

  lemma NextFree(infos: seq<Info>)
    requires MaxId(infos, |infos|) < INT_MAX
    ensures !Taken(infos, NewId(infos))
  {
    hide StrToUl, Decimal, MaxId, ToInt;
    ToIntSmall(MaxId(infos, |infos|) + 1);
    ReadPrint(MaxId(infos, |infos|) + 1);
  }

  // The computed id is free, unless the largest number taken is INT_MAX and the wrapped one is taken too.
  lemma NewIdFree(infos: seq<Info>)
    ensures !Taken(infos, NewId(infos)) <==> MaxId(infos, |infos|) < INT_MAX || !Taken(infos, Print(-INT_MAX - 1))
  {
    hide Print, MaxId, Taken, StrToUl;
    if MaxId(infos, |infos|) < INT_MAX { NextFree(infos); }
  }
}
