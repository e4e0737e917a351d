/**
 * The persisted inventory. The state file is an abstract value: missing, not
 * readable, not a JSON document, or a JSON object whose items are
 * (string key, integer count) pairs in document order. Saving writes the
 * inventory with each denomination's decimal text as key; loading turns every
 * key back into an integer with Python's `int` and keeps the current inventory
 * when a key does not convert.
 */
module Persistence {
  import opened Inventory

  datatype Option<T> = None | Some(value: T)

  datatype FileState =
    | Absent                                   // the state file does not exist
    | Unreadable                               // opening or reading it raises IOError
    | Garbled                                  // its text is not JSON (JSONDecodeError)
    | Document(items: seq<(string, int)>)      // a JSON object, items in order

  /** Where a save fails, if it does: before the target is touched (writing the
      temporary file or removing the old target), or after the old target was
      removed but before the rename put the new one in place. */
  datatype IoFault = NoFault | FailsBeforeReplace | FailsAfterRemove

  /** The machine's in-memory inventory together with the state file. */
  datatype Snapshot = Snapshot(cash: Cash, file: FileState)

  // ----- decimal text of integer keys -----

  predicate IsDigit(c: char)
  {
    '0' <= c <= '9'
  }

  /** The ASCII whitespace `int` strips from both ends: space, tab, line feed,
      vertical tab, form feed and carriage return. The separators U+001C..U+001F,
      which `str.isspace` counts, are not stripped by `int`. */
  predicate IsSpace(c: char)
  {
    c == ' ' || c == '\t' || c == '\n' || c == '\r' || c == '\U{000B}' || c == '\U{000C}'
  }

  predicate AllDigits(s: string)
  {
    forall i :: 0 <= i < |s| ==> IsDigit(s[i])
  }

  function DigitChar(n: int): char
    requires 0 <= n < 10
  {
    ['0', '1', '2', '3', '4', '5', '6', '7', '8', '9'][n]
  }

  function DigitValue(c: char): int
    requires IsDigit(c)
  {
    c as int - '0' as int
  }

  /** Decimal text of a natural number, most significant digit first, no leading zeros. */
  function NatToString(n: nat): string
    decreases n
  {
    if n < 10 then [DigitChar(n)] else NatToString(n / 10) + [DigitChar(n % 10)]
  }

  /** `str(k)` for an integer key, as `json.dump` writes it: a minus sign exactly
      for a negative key, then decimal digits. */
  function IntToString(k: int): (s: string)
    ensures s != [] && (s[0] == '-' <==> k < 0)
    ensures k < 0 ==> |s| > 1 && AllDigits(s[1..])
    ensures k >= 0 ==> AllDigits(s)
  {
    NatToStringDigits(if k < 0 then -k else k);
    if k < 0 then "-" + NatToString(-k) else NatToString(k)
  }

  /** Value of a string of decimal digits (leading zeros allowed). */
  function DigitsValue(s: string): nat
    requires AllDigits(s)
  {
    if s == [] then 0 else DigitsValue(s[..|s| - 1]) * 10 + DigitValue(s[|s| - 1])
  }

  function StripLeft(s: string): string
  {
    if s != [] && IsSpace(s[0]) then StripLeft(s[1..]) else s
  }

  function StripRight(s: string): string
  {
    if s != [] && IsSpace(s[|s| - 1]) then StripRight(s[..|s| - 1]) else s
  }

  /** Python's `int(s)` on a string: surrounding whitespace, an optional sign and at
      least one decimal digit; anything else raises ValueError (None here). */
  function ParseInt(s: string): (r: Option<int>)
    ensures s != [] && AllDigits(s) ==> r == Some(DigitsValue(s))
  {
    var t := StripRight(StripLeft(s));
    var negative := |t| > 0 && t[0] == '-';
    var body := if |t| > 0 && (t[0] == '-' || t[0] == '+') then t[1..] else t;
    if body != [] && AllDigits(body) then
      var magnitude: int := DigitsValue(body);
      Some(if negative then -magnitude else magnitude)
    else None
  }

  lemma DigitCharValue(k: int)
    requires 0 <= k < 10
    ensures IsDigit(DigitChar(k)) && DigitValue(DigitChar(k)) == k
  {
  }

  lemma {:induction false} NatToStringDigits(n: nat)
    ensures NatToString(n) != [] && AllDigits(NatToString(n))
    ensures DigitsValue(NatToString(n)) == n
    decreases n
  {
    DigitCharValue(n % 10);
    if n >= 10 {
      NatToStringDigits(n / 10);
      var prefix := NatToString(n / 10);
      var s := prefix + [DigitChar(n % 10)];
      assert s == NatToString(n);
      assert AllDigits(s) by {
        forall i | 0 <= i < |s| ensures IsDigit(s[i]) {
          if i < |prefix| { assert s[i] == prefix[i]; }
        }
      }
      assert s[..|s| - 1] == prefix;
      assert DigitsValue(s) == DigitsValue(prefix) * 10 + n % 10;
    } else {
      DigitCharValue(n);
    }
  }


  /** `int(str(k)) == k`: the key conversion on load undoes the one on save. */
  lemma ParseIntOfIntToString(k: int)
    ensures ParseInt(IntToString(k)) == Some(k)
  {
    var digits := NatToString(if k < 0 then -k else k);
    NatToStringDigits(if k < 0 then -k else k);
    var s := IntToString(k);
    assert !IsSpace(s[0]) && !IsSpace(s[|s| - 1]);
    assert StripRight(StripLeft(s)) == s;
    if k < 0 {
      assert s[1..] == digits;
    }
  }

  /** Surrounding whitespace is stripped before the sign and the digits are read;
      the ASCII separators are not whitespace to `int`. */
  lemma ParseIntStripsSpace()
    ensures ParseInt("\U{000B}100") == Some(100)
    ensures ParseInt(" -7\n") == Some(-7)
    ensures ParseInt("1 0") == None
    ensures ParseInt("\U{001C}100") == None
  {
    assert StripLeft("\U{000B}100") == "100";
    assert StripRight("100") == "100";
    assert DigitsValue("100") == 100 by {
      assert "100"[..2] == "10" && "10"[..1] == "1" && "1"[..0] == "";
    }
    assert StripRight(StripLeft("\U{001C}100")) == "\U{001C}100";
    assert !IsDigit("\U{001C}100"[0]);
    assert StripLeft(" -7\n") == "-7\n";
    assert StripRight("-7\n") == "-7";
    assert "-7"[1..] == "7";
    assert "7"[..0] == "";
    assert StripRight(StripLeft("1 0")) == "1 0";
    assert !IsDigit("1 0"[1]);
  }

  // ----- the JSON document -----

  function EncodeOver(cash: Cash, ds: seq<int>): (items: seq<(string, int)>)
    requires Stocked(cash, ds)
    ensures |items| == |ds|
    ensures forall i :: 0 <= i < |ds| ==> items[i] == (IntToString(ds[i]), cash[ds[i]])
  {
    if ds == [] then [] else [(IntToString(ds[0]), cash[ds[0]])] + EncodeOver(cash, ds[1..])
  }

  /** The items `json.dump(self.cash)` writes: one item per denomination, largest
      first, whose key is the decimal text of the denomination and whose value is
      its count. */
  function Encode(cash: Cash): (items: seq<(string, int)>)
    ensures |items| == |Denominations(cash)|
    ensures forall i :: 0 <= i < |items| ==>
              items[i] == (IntToString(Denominations(cash)[i]), cash[Denominations(cash)[i]])
  {
    EncodeOver(cash, Denominations(cash))
  }

  /** `{int(k): v for k, v in items}` evaluated into `acc`; None when a key raises. */
  function DecodeInto(acc: Cash, items: seq<(string, int)>): (r: Option<Cash>)
    ensures r.Some? <==> forall i :: 0 <= i < |items| ==> ParseInt(items[i].0).Some?
    decreases |items|
  {
    if items == [] then Some(acc)
    else match ParseInt(items[0].0)
      case None => None
      case Some(k) => DecodeInto(acc[k := items[0].1], items[1..])
  }

  /** The conversion succeeds exactly when every key of the document converts. */
  function Decode(items: seq<(string, int)>): (r: Option<Cash>)
    ensures r.Some? <==> forall i :: 0 <= i < |items| ==> ParseInt(items[i].0).Some?
  {
    DecodeInto(map[], items)
  }

  /** The restriction of `cash` to the denominations listed in `ds`. */
  function Restrict(cash: Cash, ds: seq<int>): (r: Cash)
    requires Stocked(cash, ds)
    ensures forall d :: d in r <==> d in ds
  {
    map d | d in ds :: cash[d]
  }

  lemma {:induction false} DecodeEncodeOver(acc: Cash, cash: Cash, ds: seq<int>)
    requires Stocked(cash, ds)
    ensures DecodeInto(acc, EncodeOver(cash, ds)) == Some(acc + Restrict(cash, ds))
    decreases |ds|
  {
    if ds != [] {
      var d := ds[0];
      ParseIntOfIntToString(d);
      assert EncodeOver(cash, ds)[1..] == EncodeOver(cash, ds[1..]);
      DecodeEncodeOver(acc[d := cash[d]], cash, ds[1..]);
      RestrictStep(acc, cash, ds);
    } else {
      assert acc + Restrict(cash, ds) == acc;
    }
  }

  lemma RestrictStep(acc: Cash, cash: Cash, ds: seq<int>)
    requires Stocked(cash, ds) && ds != []
    ensures acc[ds[0] := cash[ds[0]]] + Restrict(cash, ds[1..]) == acc + Restrict(cash, ds)
  {
    var lhs := acc[ds[0] := cash[ds[0]]] + Restrict(cash, ds[1..]);
    var rhs := acc + Restrict(cash, ds);
    forall x ensures x in lhs <==> x in rhs {
      if x in ds[1..] { assert x in ds; }
      if x in ds && x != ds[0] {
        var j :| 0 <= j < |ds| && ds[j] == x;
        assert ds[1..][j - 1] == x;
      }
    }
    forall x | x in lhs ensures lhs[x] == rhs[x] {
      if x in ds[1..] { assert x in ds; }
    }
  }

  /** Loading what was saved reproduces the inventory exactly. */
  lemma DecodeEncode(cash: Cash)
    ensures Decode(Encode(cash)) == Some(cash)
  {
    var ds := Denominations(cash);
    var r := Restrict(cash, ds);
    assert Decode(Encode(cash)) == Some(map[] + r) by {
      DecodeEncodeOver(map[], cash, ds);
    }
    EmptyUnion(r);
    RestrictAll(cash, ds);
  }

  lemma EmptyUnion(m: Cash)
    ensures map[] + m == m
  {
    assert (map[] + m).Keys == m.Keys;
  }

  /** Restricting to an enumeration of all the keys changes nothing. */
  lemma RestrictAll(cash: Cash, ds: seq<int>)
    requires Stocked(cash, ds)
    requires forall x :: x in ds <==> x in cash
    ensures Restrict(cash, ds) == cash
  {
    var r := Restrict(cash, ds);
    forall x ensures x in r <==> x in cash {
      assert x in r <==> x in ds;
    }
    assert r.Keys == cash.Keys;
  }

  // ----- the save / load state machine -----

  /** The state file after `save_state` with the given fault. */
  /** Whatever fails, the file is never left half written: it holds the new
      document, the old file, or nothing. */
  function AfterSave(cash: Cash, file: FileState, fault: IoFault): (f: FileState)
    ensures f == Document(Encode(cash)) || f == file || f == Absent
    ensures fault == NoFault ==> f == Document(Encode(cash))
  {
    match fault
    case NoFault => Document(Encode(cash))
    case FailsBeforeReplace => file
    case FailsAfterRemove => Absent
  }

  /** `load_state`: keep the stored inventory when every key converts; write the
      current inventory when the file is missing or corrupt; change nothing when
      the file cannot be read. */
  function Load(s: Snapshot, fault: IoFault): (r: Snapshot)
    ensures r.cash == s.cash || (s.file.Document? && Decode(s.file.items) == Some(r.cash))
    ensures r.file == s.file || r.file == AfterSave(s.cash, s.file, fault)
    ensures r.cash != s.cash ==> r.file == s.file
  {
    match s.file
    case Absent => Snapshot(s.cash, AfterSave(s.cash, s.file, fault))
    case Unreadable => s
    case Garbled => Snapshot(s.cash, AfterSave(s.cash, s.file, fault))
    case Document(items) =>
      match Decode(items)
      case Some(m) => Snapshot(m, s.file)
      case None => Snapshot(s.cash, AfterSave(s.cash, s.file, fault))
  }

  /** After a successful save, a load (whatever the machine held before) restores
      exactly the saved inventory and leaves the file as it is. */
  lemma LoadAfterSave(saved: Cash, current: Cash, previous: FileState, fault: IoFault)
    ensures Load(Snapshot(current, AfterSave(saved, previous, NoFault)), fault)
         == Snapshot(saved, AfterSave(saved, previous, NoFault))
  {
    DecodeEncode(saved);
  }

  /** A corrupt file (not JSON, or a key `int` rejects) leaves the inventory as it
      was and rewrites the file with it. */
  lemma LoadCorruptKeepsInventory(s: Snapshot, fault: IoFault)
    requires s.file.Garbled? || (s.file.Document? && Decode(s.file.items).None?)
    ensures Load(s, fault).cash == s.cash
    ensures Load(s, fault).file == AfterSave(s.cash, s.file, fault)
  {
  }

  /** A load that keeps the stored inventory holds exactly the converted keys of
      the document (plus what it started from). */
  lemma {:induction false} DecodeKeys(acc: Cash, items: seq<(string, int)>, k: int)
    requires DecodeInto(acc, items).Some?
    ensures k in DecodeInto(acc, items).value <==>
              (k in acc || exists i :: 0 <= i < |items| && ParseInt(items[i].0) == Some(k))
    decreases |items|
  {
    if items != [] {
      var k0 := ParseInt(items[0].0).value;
      DecodeKeys(acc[k0 := items[0].1], items[1..], k);
      if exists i :: 0 <= i < |items[1..]| && ParseInt(items[1..][i].0) == Some(k) {
        var i :| 0 <= i < |items[1..]| && ParseInt(items[1..][i].0) == Some(k);
        assert ParseInt(items[i + 1].0) == Some(k);
      }
      if exists i :: 0 <= i < |items| && ParseInt(items[i].0) == Some(k) {
        var i :| 0 <= i < |items| && ParseInt(items[i].0) == Some(k);
        if i > 0 {
          assert ParseInt(items[1..][i - 1].0) == Some(k);
        }
      }
    }
  }
}
