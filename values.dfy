/**
 * The dynamically typed values that records, documents and conditions carry,
 * with the PHP conversions the record layer relies on: casts to array and
 * object, `empty()`, loose comparison with null, string conversion, the
 * integer cast, `strtolower`, `trim` and `explode`.
 */
module PhpValues {

  datatype Option<+T> = None | Some(value: T)

  /** A key of a PHP array: an integer or a string. */
  datatype Key = IntKey(n: int) | StrKey(s: string)

  /**
   * A PHP value. Arrays and plain objects keep their entries in order;
   * `VRecord` is an instance of an embeddable model class with its properties.
   * Floating-point numbers are not modelled.
   */
  datatype Value =
    | VNull
    | VBool(b: bool)
    | VInt(i: int)
    | VStr(s: string)
    | VArray(entries: seq<Pair>)
    | VObject(props: seq<Pair>)
    | VRecord(cls: string, props: seq<Pair>)

  datatype Pair = Pair(key: Key, val: Value)

  predicate IsArray(v: Value) { v.VArray? }

  predicate IsObject(v: Value) { v.VObject? || v.VRecord? }

  /** `isset()` of a value that exists: anything but null. */
  predicate IsSet(v: Value) { v != VNull }

  /** PHP `empty()`: null, false, 0, "", "0" and the empty array. Objects are never empty. */
  predicate IsEmpty(v: Value)
  {
    match v
    case VNull => true
    case VBool(b) => !b
    case VInt(i) => i == 0
    case VStr(s) => s == "" || s == "0"
    case VArray(e) => e == []
    case VObject(_) => false
    case VRecord(_, _) => false
  }

  /** PHP `$v == null`: null, false, 0, "" and the empty array (but not "0"). */
  predicate IsLooseNull(v: Value)
  {
    match v
    case VNull => true
    case VBool(b) => !b
    case VInt(i) => i == 0
    case VStr(s) => s == ""
    case VArray(e) => e == []
    case VObject(_) => false
    case VRecord(_, _) => false
  }

  /** `(array)$v`. */
  function ToArray(v: Value): (r: Value)
    ensures r.VArray?
    ensures v.VArray? ==> r == v
    ensures v.VObject? ==> r.entries == v.props
    ensures v.VRecord? ==> r.entries == v.props
    ensures v == VNull ==> r.entries == []
  {
    match v
    case VNull => VArray([])
    case VArray(_) => v
    case VObject(p) => VArray(p)
    case VRecord(_, p) => VArray(p)
    case _ => VArray([Pair(IntKey(0), v)])
  }

  /** `(object)$v`: objects stay as they are, arrays become plain objects, a scalar lands in `scalar`. */
  function ToObject(v: Value): (r: Value)
    ensures IsObject(r)
    ensures IsObject(v) ==> r == v
    ensures v.VArray? ==> r == VObject(v.entries)
    ensures v == VNull ==> r == VObject([])
  {
    match v
    case VNull => VObject([])
    case VArray(e) => VObject(e)
    case VObject(_) => v
    case VRecord(_, _) => v
    case _ => VObject([Pair(StrKey("scalar"), v)])
  }

  lemma CastsRoundTrip(v: Value)
    ensures ToArray(ToArray(v)) == ToArray(v)
    ensures ToObject(ToObject(v)) == ToObject(v)
    ensures v.VArray? ==> ToArray(ToObject(v)) == v
    ensures v.VObject? ==> ToObject(ToArray(v)) == v
  {
  }

  // ---------------------------------------------------------------- digits

  predicate IsDigit(c: char) { '0' <= c <= '9' }

  function DigitChar(d: nat): (c: char)
    requires d < 10
    ensures IsDigit(c) && (c as int) - ('0' as int) == d
  {
    ('0' as int + d) as char
  }

  function DigitOf(c: char): nat
    requires IsDigit(c)
  {
    (c as int) - ('0' as int)
  }

  /** Decimal digits of a natural number, without leading zeros. */
  function NatToString(n: nat): (r: string)
    decreases n
  {
    if n < 10 then [DigitChar(n)] else NatToString(n / 10) + [DigitChar(n % 10)]
  }

  lemma {:induction false} NatToStringDigits(n: nat)
    ensures |NatToString(n)| >= 1
    ensures forall k :: 0 <= k < |NatToString(n)| ==> IsDigit(NatToString(n)[k])
    decreases n
  {
    if n >= 10 {
      NatToStringDigits(n / 10);
    }
  }

  /** PHP's string form of an integer. */
  function IntToString(i: int): string
  {
    if i < 0 then "-" + NatToString(-i) else NatToString(i)
  }

  /** The number of leading decimal digits of `s`. */
  function DigitRun(s: string): (k: nat)
    ensures k <= |s|
    ensures forall j :: 0 <= j < k ==> IsDigit(s[j])
    ensures k < |s| ==> !IsDigit(s[k])
  {
    if |s| == 0 || !IsDigit(s[0]) then 0 else 1 + DigitRun(s[1..])
  }

  /** The value of a string of decimal digits. */
  function DigitsValue(s: string): nat
    requires forall j :: 0 <= j < |s| ==> IsDigit(s[j])
  {
    if |s| == 0 then 0 else 10 * DigitsValue(s[..|s| - 1]) + DigitOf(s[|s| - 1])
  }

  predicate IsSpace(c: char) { c == ' ' || c == '\t' || c == '\n' || c == '\r' || c as int == 11 || c as int == 12 }

  function SkipSpace(s: string): (r: string)
    ensures |r| <= |s|
  {
    if |s| > 0 && IsSpace(s[0]) then SkipSpace(s[1..]) else s
  }

  /** The integer value of a leading decimal digit run, as `(int)` reads it. */
  function LeadingNat(s: string): nat
  {
    DigitsValue(s[..DigitRun(s)])
  }

  /**
   * `(int)$s` for a string: leading white space, an optional sign and the
   * longest run of decimal digits; anything else yields 0.
   */
  function StrToInt(s: string): int
  {
    var t := SkipSpace(s);
    if |t| > 0 && t[0] == '-' then 0 - LeadingNat(t[1..]) as int
    else if |t| > 0 && t[0] == '+' then LeadingNat(t[1..])
    else LeadingNat(t)
  }

  lemma {:induction false} DigitRunOfDigits(s: string)
    requires forall j :: 0 <= j < |s| ==> IsDigit(s[j])
    ensures DigitRun(s) == |s|
  {
    if |s| > 0 {
      DigitRunOfDigits(s[1..]);
    }
  }

  lemma {:induction false} NatToStringValue(n: nat)
    ensures forall j :: 0 <= j < |NatToString(n)| ==> IsDigit(NatToString(n)[j])
    ensures DigitsValue(NatToString(n)) == n
    decreases n
  {
    NatToStringDigits(n);
    if n >= 10 {
      NatToStringValue(n / 10);
      var s := NatToString(n);
      assert s[..|s| - 1] == NatToString(n / 10);
    }
  }

  /** Reading back the decimal text of an integer gives the integer. */
  lemma {:induction false} StrToIntOfIntToString(i: int)
    ensures StrToInt(IntToString(i)) == i
  {
    var m: nat := if i < 0 then -i else i;
    var d := NatToString(m);
    NatToStringValue(m);
    DigitRunOfDigits(d);
    assert d[..DigitRun(d)] == d;
    assert LeadingNat(d) == m;
    NatToStringDigits(m);
    if i < 0 {
      var t := "-" + d;
      assert SkipSpace(t) == t;
      assert t[1..] == d;
    } else {
      assert !IsSpace(d[0]) && d[0] != '-' && d[0] != '+';
      assert SkipSpace(d) == d;
    }
  }

  // ---------------------------------------------------------------- conversions

  /**
   * String conversion as used by interpolation, `implode` and `(string)`.
   * Objects have no string form in PHP (it raises an error); the model
   * yields "" for them.
   */
  function Str(v: Value): string
  {
    match v
    case VNull => ""
    case VBool(b) => if b then "1" else ""
    case VInt(i) => IntToString(i)
    case VStr(s) => s
    case VArray(_) => "Array"
    case VObject(_) => ""
    case VRecord(_, _) => ""
  }

  /** `(int)$v`. */
  function IntCast(v: Value): int
  {
    match v
    case VNull => 0
    case VBool(b) => if b then 1 else 0
    case VInt(i) => i
    case VStr(s) => StrToInt(s)
    case VArray(e) => if e == [] then 0 else 1
    case VObject(_) => 1
    case VRecord(_, _) => 1
  }

  lemma IntCastOfRenderedInt(i: int)
    ensures IntCast(VStr(Str(VInt(i)))) == i
  {
    StrToIntOfIntToString(i);
  }

  /** Truthiness, as `(bool)$v` reads it. */
  predicate Truthy(v: Value) { !IsEmpty(v) }

  /** A string PHP treats as an integer in a comparison: optional leading space and sign, then digits only. */
  predicate IsIntString(s: string)
  {
    var t := SkipSpace(s);
    var u := if |t| > 0 && (t[0] == '-' || t[0] == '+') then t[1..] else t;
    |u| > 0 && DigitRun(u) == |u|
  }

  /**
   * PHP 7's `$a == $b` over the values modelled here: null against a string
   * is a comparison with "", null or a boolean against anything compares
   * truthiness, an integer against a string reads the string as an integer,
   * two integer strings compare as numbers; arrays and objects compare
   * structurally.
   */
  predicate LooseEq(a: Value, b: Value)
  {
    if a.VNull? && b.VStr? then b.s == ""
    else if a.VStr? && b.VNull? then a.s == ""
    else if a.VBool? || b.VBool? || a.VNull? || b.VNull? then Truthy(a) == Truthy(b)
    else if a.VInt? && b.VInt? then a.i == b.i
    else if a.VInt? && b.VStr? then a.i == StrToInt(b.s)
    else if a.VStr? && b.VInt? then StrToInt(a.s) == b.i
    else if a.VStr? && b.VStr? then
      (if IsIntString(a.s) && IsIntString(b.s) then StrToInt(a.s) == StrToInt(b.s) else a.s == b.s)
    else a == b
  }

  /** Loose equality is symmetric and holds between a value and itself. */
  lemma LooseEqSymmetric(a: Value, b: Value)
    ensures LooseEq(a, b) <==> LooseEq(b, a)
    ensures LooseEq(a, a)
  {
  }

  /** `1`, `"1"`, `" 01"` and `true` are all loosely equal to 1; `0`, `"2"` and null are not. */
  lemma LooseEqOne()
    ensures LooseEq(VInt(1), VInt(1)) && LooseEq(VStr("1"), VInt(1)) && LooseEq(VBool(true), VInt(1))
    ensures LooseEq(VStr(" 01"), VInt(1))
    ensures !LooseEq(VInt(0), VInt(1)) && !LooseEq(VStr("2"), VInt(1)) && !LooseEq(VNull, VInt(1))
  {
    assert StrToInt("1") == 1 by {
      assert SkipSpace("1") == "1";
      assert DigitRun("1") == 1;
      assert "1"[..1] == "1";
    }
    assert StrToInt("2") == 2 by {
      assert SkipSpace("2") == "2";
      assert DigitRun("2") == 1;
      assert "2"[..1] == "2";
    }
    assert StrToInt(" 01") == 1 by {
      assert " 01"[1..] == "01";
      assert SkipSpace("01") == "01";
      assert SkipSpace(" 01") == "01";
      assert "01"[1..] == "1";
      assert DigitRun("01") == 2;
      assert "01"[..2] == "01";
      assert "01"[..1] == "0";
      assert DigitsValue("01") == 1;
    }
  }

  // ---------------------------------------------------------------- strings

  function LowerChar(c: char): char
  {
    if 'A' <= c <= 'Z' then (c as int + 32) as char else c
  }

  /** `strtolower` (ASCII letters only). */
  function Lower(s: string): (r: string)
    ensures |r| == |s|
    ensures forall k :: 0 <= k < |s| ==> r[k] == LowerChar(s[k])
  {
    seq(|s|, k requires 0 <= k < |s| => LowerChar(s[k]))
  }

  /** The characters `trim` removes by default. */
  predicate IsTrimmed(c: char) { c == ' ' || c == '\t' || c == '\n' || c == '\r' || c == '\0' || c as int == 11 }

  function TrimLeft(s: string): (r: string)
    ensures |r| <= |s|
    ensures |r| > 0 ==> !IsTrimmed(r[0])
  {
    if |s| > 0 && IsTrimmed(s[0]) then TrimLeft(s[1..]) else s
  }

  function TrimRight(s: string): (r: string)
    ensures |r| <= |s|
    ensures |r| > 0 ==> !IsTrimmed(r[|r| - 1])
  {
    if |s| > 0 && IsTrimmed(s[|s| - 1]) then TrimRight(s[..|s| - 1]) else s
  }

  /** `trim`: strip the default white-space characters from both ends. */
  function Trim(s: string): string
  {
    TrimRight(TrimLeft(s))
  }

  lemma {:induction false} TrimRightKeepsFront(s: string)
    requires |s| > 0 && !IsTrimmed(s[0])
    ensures |TrimRight(s)| > 0 && TrimRight(s)[0] == s[0]
  {
    if IsTrimmed(s[|s| - 1]) {
      TrimRightKeepsFront(s[..|s| - 1]);
    }
  }

  /** A trimmed string starts and ends with a character `trim` keeps, and trimming again changes nothing. */
  lemma TrimProperties(s: string)
    ensures var t := Trim(s); |t| > 0 ==> !IsTrimmed(t[0]) && !IsTrimmed(t[|t| - 1])
    ensures Trim(Trim(s)) == Trim(s)
  {
    var l := TrimLeft(s);
    if |l| > 0 {
      TrimRightKeepsFront(l);
    }
  }

  /** `explode` on a one-character separator: the pieces between separators, at least one. */
  function Split(s: string, sep: char): (r: seq<string>)
    ensures |r| >= 1
  {
    if |s| == 0 then [""]
    else if s[0] == sep then [""] + Split(s[1..], sep)
    else
      var rest := Split(s[1..], sep);
      [[s[0]] + rest[0]] + rest[1..]
  }

  lemma {:induction false} SplitWithout(s: string, sep: char)
    requires forall j :: 0 <= j < |s| ==> s[j] != sep
    ensures Split(s, sep) == [s]
  {
    if |s| > 0 {
      SplitWithout(s[1..], sep);
      assert s == [s[0]] + s[1..];
    }
  }

  /** Exploding at the first separator: the text before it is the first piece. */
  lemma {:induction false} SplitAtFirst(p: string, q: string, sep: char)
    requires forall j :: 0 <= j < |p| ==> p[j] != sep
    ensures Split(p + [sep] + q, sep) == [p] + Split(q, sep)
  {
    var s := p + [sep] + q;
    if |p| == 0 {
      assert s[1..] == q;
    } else {
      assert s[1..] == p[1..] + [sep] + q;
      SplitAtFirst(p[1..], q, sep);
      assert [s[0]] + p[1..] == p;
    }
  }

  lemma TrimUntouched(s: string)
    requires |s| > 0 && !IsTrimmed(s[0]) && !IsTrimmed(s[|s| - 1])
    ensures Trim(s) == s
  {
  }

  /** `implode`. */
  function Join(parts: seq<string>, sep: string): string
  {
    if |parts| == 0 then ""
    else if |parts| == 1 then parts[0]
    else parts[0] + sep + Join(parts[1..], sep)
  }

  /** Exploding and imploding again with the same separator restores the string, and no piece holds the separator. */
  lemma {:induction false} SplitJoin(s: string, sep: char)
    ensures Join(Split(s, sep), [sep]) == s
    ensures forall k, j :: 0 <= k < |Split(s, sep)| && 0 <= j < |Split(s, sep)[k]| ==> Split(s, sep)[k][j] != sep
  {
    if |s| > 0 {
      SplitJoin(s[1..], sep);
      var rest := Split(s[1..], sep);
      if s[0] == sep {
        assert Split(s, sep) == [""] + rest;
        assert Join([""] + rest, [sep]) == "" + [sep] + Join(rest, [sep]);
        assert s == [sep] + s[1..];
      } else {
        var r := Split(s, sep);
        assert r == [[s[0]] + rest[0]] + rest[1..];
        if |rest| == 1 {
          assert Join(r, [sep]) == [s[0]] + rest[0];
        } else {
          assert Join(rest, [sep]) == rest[0] + [sep] + Join(rest[1..], [sep]);
          assert r[1..] == rest[1..];
          assert Join(r, [sep]) == ([s[0]] + rest[0]) + [sep] + Join(rest[1..], [sep]);
        }
        assert s == [s[0]] + s[1..];
        forall k, j | 0 <= k < |r| && 0 <= j < |r[k]|
          ensures r[k][j] != sep
        {
          if k == 0 && j > 0 {
            assert r[0][j] == rest[0][j - 1];
          } else if k > 0 {
            assert r[k] == rest[k];
          }
        }
      }
    }
  }

  // ---------------------------------------------------------------- array items

  function MaxIntKey(entries: seq<Pair>): int
  {
    if |entries| == 0 then -1
    else
      var m := MaxIntKey(entries[..|entries| - 1]);
      var k := entries[|entries| - 1].key;
      if k.IntKey? && k.n > m then k.n else m
  }

  /**
   * The key `$a[] = x` and `array_push` use: one past the largest
   * non-negative integer key in use. PHP takes the array's next free slot,
   * which `unset` never lowers: after `[0 => a, 1 => b]`, `unset($a[1])` and
   * a push, PHP uses key 2 where this gives 1, since only the keys present
   * are modelled.
   */
  function NextIndex(entries: seq<Pair>): nat
  {
    var m := MaxIntKey(entries);
    if m < 0 then 0 else m + 1
  }

  function HasKey(entries: seq<Pair>, k: Key): bool
  {
    exists j :: 0 <= j < |entries| && entries[j].key == k
  }

  /** `$a[$k] = $v`: replace the value of every entry with key `k` in place, or append one. */
  function SetKey(entries: seq<Pair>, k: Key, v: Value): (r: seq<Pair>)
  {
    if HasKey(entries, k) then
      seq(|entries|, j requires 0 <= j < |entries| => if entries[j].key == k then Pair(k, v) else entries[j])
    else entries + [Pair(k, v)]
  }

  /** `unset($a[$k])`. */
  function RemoveKey(entries: seq<Pair>, k: Key): (r: seq<Pair>)
    ensures !HasKey(r, k)
    ensures |r| <= |entries|
  {
    if |entries| == 0 then []
    else if entries[0].key == k then RemoveKey(entries[1..], k)
    else [entries[0]] + RemoveKey(entries[1..], k)
  }

  function Lookup(entries: seq<Pair>, k: Key): Option<Value>
  {
    if |entries| == 0 then None
    else if entries[0].key == k then Some(entries[0].val)
    else Lookup(entries[1..], k)
  }

  lemma {:induction false} LookupFound(entries: seq<Pair>, k: Key)
    ensures Lookup(entries, k).Some? <==> HasKey(entries, k)
  {
    if |entries| > 0 {
      LookupFound(entries[1..], k);
      if entries[0].key != k {
        if HasKey(entries, k) {
          var j :| 0 <= j < |entries| && entries[j].key == k;
          assert entries[1..][j - 1].key == k;
        }
        if HasKey(entries[1..], k) {
          var j :| 0 <= j < |entries[1..]| && entries[1..][j].key == k;
          assert entries[j + 1].key == k;
        }
      }
    }
  }

  /** After `$a[$k] = $v`, looking `k` up yields `v`. */
  lemma {:induction false} SetKeyThenLookup(entries: seq<Pair>, k: Key, v: Value)
    ensures Lookup(SetKey(entries, k, v), k) == Some(v)
  {
    var r := SetKey(entries, k, v);
    if HasKey(entries, k) {
      var j :| 0 <= j < |entries| && entries[j].key == k;
      assert r[j].key == k;
      LookupFirst(r, k, v);
    } else {
      LookupFound(entries, k);
      LookupAppend(entries, k, v);
    }
  }

  lemma {:induction false} LookupFirst(r: seq<Pair>, k: Key, v: Value)
    requires forall j :: 0 <= j < |r| && r[j].key == k ==> r[j].val == v
    requires HasKey(r, k)
    ensures Lookup(r, k) == Some(v)
  {
    if r[0].key != k {
      var j :| 0 <= j < |r| && r[j].key == k;
      assert r[1..][j - 1].key == k;
      LookupFirst(r[1..], k, v);
    }
  }

  /** An entry appended under a key not yet present is what that key then finds (the push step, under `NextIndex`'s key). */
  lemma {:induction false} LookupAppend(entries: seq<Pair>, k: Key, v: Value)
    requires Lookup(entries, k) == None
    ensures Lookup(entries + [Pair(k, v)], k) == Some(v)
  {
    if |entries| > 0 {
      assert (entries + [Pair(k, v)])[1..] == entries[1..] + [Pair(k, v)];
      LookupAppend(entries[1..], k, v);
    }
  }

  /** After `unset($a[$k])` the key is gone. */
  lemma UnsetThenLookup(entries: seq<Pair>, k: Key)
    ensures Lookup(RemoveKey(entries, k), k) == None
  {
    LookupFound(RemoveKey(entries, k), k);
  }
}
