// Last-wins deduplication of rows by run key, with generated keys for rows that have none.
module KeyedDedup {
  import opened Wrappers

  datatype Row = Row(key: string, fields: seq<string>)
  datatype Item = Item(key: string, row: Row)

  // ------------------------------------------------------------------- generated keys

  function Digits(n: nat): (s: string)
    ensures s != [] && (n >= 10 ==> |s| > 1)
  {
    if n < 10 then [DIGITS[n]] else Digits(n / 10) + [DIGITS[n % 10]]
  }

  const DIGITS := "0123456789"

  lemma {:induction false} DigitsInjective(a: nat, b: nat)
    requires Digits(a) == Digits(b)
    ensures a == b
  {
    DigitsDistinct(a % 10, b % 10);
    var s := Digits(a);
    assert s[|s| - 1] == DIGITS[a % 10] == DIGITS[b % 10];
    if a >= 10 && b >= 10 {
      assert Digits(a / 10) == s[..|s| - 1] == Digits(b / 10);
      DigitsInjective(a / 10, b / 10);
    } else {
      assert a < 10 ==> |s| == 1;
      assert b < 10 ==> |s| == 1;
    }
  }

  lemma DigitsDistinct(i: nat, j: nat)
    requires i < 10 && j < 10
    ensures DIGITS[i] == DIGITS[j] <==> i == j
  {
  }

  function RowKey(n: nat): string { "__row_" + Digits(n) }

  lemma RowKeyInjective(a: nat, b: nat)
    requires RowKey(a) == RowKey(b)
    ensures a == b
  {
    assert Digits(a) == RowKey(a)[6..] && Digits(b) == RowKey(b)[6..];
    DigitsInjective(a, b);
  }

  // ------------------------------------------------------------- the ordered dictionary

  function Find(dict: seq<Item>, key: string, n: nat): (found: Option<nat>)
    requires n <= |dict|
    ensures found.Some? ==> found.value < n && dict[found.value].key == key
    ensures found.None? ==> forall k | 0 <= k < n :: dict[k].key != key
  {
    if n == 0 then None else if dict[n - 1].key == key then Some(n - 1) else Find(dict, key, n - 1)
  }

  // Assignment keeps the place of a key that is already there.
  function Put(dict: seq<Item>, key: string, row: Row): (next: seq<Item>)
    ensures |next| == |dict| + (if Find(dict, key, |dict|).None? then 1 else 0)
    ensures forall k | 0 <= k < |dict| :: next[k].key == dict[k].key
  {
    match Find(dict, key, |dict|)
    case Some(k) => dict[k := Item(key, row)]
    case None => dict + [Item(key, row)]
  }

  function KeyFor(row: Row, size: nat): string {
    if row.key == "" then RowKey(size) else row.key
  }

  function PutRow(dict: seq<Item>, row: Row): seq<Item> {
    Put(dict, KeyFor(row, |dict|), row)
  }

  function Dedup(rows: seq<Row>, n: nat): seq<Item>
    requires n <= |rows|
  {
    if n == 0 then [] else PutRow(Dedup(rows, n - 1), rows[n - 1])
  }

  function Rows(dict: seq<Item>): seq<Row> {
    seq(|dict|, k requires 0 <= k < |dict| => dict[k].row)
  }

  // --------------------------------------------------------------- what should come out

  // One place in the output: the first and the last row that belong to it.
  datatype Slot = Slot(first: nat, last: nat)

  predicate Blank(rows: seq<Row>, i: nat)
    requires i < |rows|
  {
    rows[i].key == ""
  }

  predicate InRange(rows: seq<Row>, slots: seq<Slot>) {
    forall k | 0 <= k < |slots| :: slots[k].first < |rows| && slots[k].last < |rows|
  }

  predicate Holds(rows: seq<Row>, slot: Slot, key: string)
    requires slot.first < |rows|
  {
    rows[slot.first].key != "" && rows[slot.first].key == key
  }

  function FindSlot(rows: seq<Row>, slots: seq<Slot>, key: string, n: nat): (found: Option<nat>)
    requires n <= |slots| && InRange(rows, slots)
    ensures found.Some? ==> found.value < n && Holds(rows, slots[found.value], key)
    ensures found.None? ==> forall k | 0 <= k < n :: !Holds(rows, slots[k], key)
  {
    if n == 0 then None else if Holds(rows, slots[n - 1], key) then Some(n - 1) else FindSlot(rows, slots, key, n - 1)
  }

  // A row without a key opens a slot, any other row joins the slot of its key or opens one.
  function AddRow(rows: seq<Row>, before: seq<Slot>, n: nat): (slots: seq<Slot>)
    requires n < |rows| && InRange(rows, before)
    ensures InRange(rows, slots) && |before| <= |slots| <= |before| + 1
    ensures forall k | 0 <= k < |before| :: slots[k].first == before[k].first
    ensures |slots| == |before| + 1 ==> slots[|before|] == Slot(n, n)
  {
    if rows[n].key == "" then before + [Slot(n, n)] else
      match FindSlot(rows, before, rows[n].key, |before|)
      case Some(k) => before[k := before[k].(last := n)]
      case None => before + [Slot(n, n)]
  }

  function SlotsOf(rows: seq<Row>, n: nat): (slots: seq<Slot>)
    requires n <= |rows|
    ensures InRange(rows, slots)
  {
    if n == 0 then [] else AddRow(rows, SlotsOf(rows, n - 1), n - 1)
  }

  // A slot of the first n rows: its first row opens it, its last row is the latest of its key.
  ghost predicate SlotCorrect(rows: seq<Row>, n: nat, slot: Slot)
    requires n <= |rows|
  {
    && slot.first <= slot.last < n
    && (Blank(rows, slot.first) ==> slot.last == slot.first)
    && (!Blank(rows, slot.first) ==>
         && rows[slot.last].key == rows[slot.first].key
         && (forall i | 0 <= i < slot.first :: rows[i].key != rows[slot.first].key)
         && (forall i | slot.last < i < n :: rows[i].key != rows[slot.first].key))
  }

  predicate Owns(rows: seq<Row>, slot: Slot, i: nat)
    requires i < |rows| && slot.first < |rows|
  {
    slot.first == i || Holds(rows, slot, rows[i].key)
  }

  ghost predicate Covered(rows: seq<Row>, slots: seq<Slot>, i: nat)
    requires i < |rows| && InRange(rows, slots)
  {
    exists k :: 0 <= k < |slots| && Owns(rows, slots[k], i)
  }

  // Ordered by first appearance, each holding the latest row of its key, covering every row.
  ghost predicate SlotsCorrect(rows: seq<Row>, n: nat, slots: seq<Slot>)
    requires n <= |rows| && InRange(rows, slots)
  {
    && (forall k | 0 <= k < |slots| :: SlotCorrect(rows, n, slots[k]))
    && (forall k, k' | 0 <= k < k' < |slots| :: slots[k].first < slots[k'].first)
    && (forall i: nat | i < n :: Covered(rows, slots, i))
  }

  lemma SlotStep(rows: seq<Row>, n: nat, slot: Slot)
    requires n < |rows| && SlotCorrect(rows, n, slot)
    ensures Holds(rows, slot, rows[n].key) ==> SlotCorrect(rows, n + 1, slot.(last := n))
    ensures !Holds(rows, slot, rows[n].key) ==> SlotCorrect(rows, n + 1, slot)
  {
  }

  lemma SoleHolder(rows: seq<Row>, n: nat, slots: seq<Slot>, j: nat, k: nat, key: string)
    requires n <= |rows| && j < |slots| && k < |slots| && InRange(rows, slots)
    requires SlotCorrect(rows, n, slots[j]) && SlotCorrect(rows, n, slots[k])
    requires forall i, i' | 0 <= i < i' < |slots| :: slots[i].first < slots[i'].first
    requires Holds(rows, slots[j], key) && Holds(rows, slots[k], key)
    ensures j == k
  {
    assert !(slots[j].first < slots[k].first) && !(slots[k].first < slots[j].first);
  }

  lemma OldSlotCorrect(rows: seq<Row>, n: nat, before: seq<Slot>, after: seq<Slot>, k: nat)
    requires n < |rows| && InRange(rows, before) && SlotsCorrect(rows, n, before) &&
             after == AddRow(rows, before, n) && k < |before|
    ensures SlotCorrect(rows, n + 1, after[k])
  {
    SlotStep(rows, n, before[k]);
    if Holds(rows, before[k], rows[n].key) {
      var j := FindSlot(rows, before, rows[n].key, |before|).value;
      SoleHolder(rows, n, before, j, k, rows[n].key);
    }
  }

  lemma NewSlotCorrect(rows: seq<Row>, n: nat, before: seq<Slot>, after: seq<Slot>)
    requires n < |rows| && InRange(rows, before) && SlotsCorrect(rows, n, before) && after == AddRow(rows, before, n)
    requires |after| > |before|
    ensures SlotCorrect(rows, n + 1, after[|before|])
  {
    if rows[n].key != "" {
      forall i: nat | i < n
        ensures rows[i].key != rows[n].key
      {
        assert Covered(rows, before, i);
        var k :| 0 <= k < |before| && Owns(rows, before[k], i);
        assert !Holds(rows, before[k], rows[n].key);
      }
    }
  }

  lemma CoverStep(rows: seq<Row>, n: nat, before: seq<Slot>, after: seq<Slot>, i: nat)
    requires n < |rows| && InRange(rows, before) && after == AddRow(rows, before, n) && i <= n
    requires i < n ==> Covered(rows, before, i)
    ensures Covered(rows, after, i)
  {
    if i < n {
      var k :| 0 <= k < |before| && Owns(rows, before[k], i);
      assert Owns(rows, after[k], i);
    } else if |after| > |before| {
      assert Owns(rows, after[|before|], n);
    } else {
      var k := FindSlot(rows, before, rows[n].key, |before|).value;
      assert Owns(rows, after[k], n);
    }
  }

  /** The slots are ordered by first appearance, hold the latest row of their key, and every row
      belongs to one. */
  lemma {:induction false} SlotsAreCorrect(rows: seq<Row>, n: nat)
    requires n <= |rows|
    ensures SlotsCorrect(rows, n, SlotsOf(rows, n))
  {
    hide AddRow, SlotCorrect;
    if n > 0 {
      SlotsAreCorrect(rows, n - 1);
      StepCorrect(rows, n - 1, SlotsOf(rows, n - 1), SlotsOf(rows, n));
    }
  }

  lemma FirstsRise(rows: seq<Row>, n: nat, before: seq<Slot>, after: seq<Slot>)
    requires n < |rows| && InRange(rows, before) && SlotsCorrect(rows, n, before) && after == AddRow(rows, before, n)
    ensures forall k, k' | 0 <= k < k' < |after| :: after[k].first < after[k'].first
  {
    hide AddRow, Covered;
    forall k, k' | 0 <= k < k' < |after|
      ensures after[k].first < after[k'].first
    {
      assert SlotCorrect(rows, n, before[k]);
    }
  }

  lemma StepCorrect(rows: seq<Row>, n: nat, before: seq<Slot>, after: seq<Slot>)
    requires n < |rows| && InRange(rows, before) && SlotsCorrect(rows, n, before) && after == AddRow(rows, before, n)
    ensures SlotsCorrect(rows, n + 1, after)
  {
    hide AddRow, SlotCorrect, Covered;
    forall k: nat | k < |after|
      ensures SlotCorrect(rows, n + 1, after[k])
    {
      if k < |before| { OldSlotCorrect(rows, n, before, after, k); } else { NewSlotCorrect(rows, n, before, after); }
    }
    FirstsRise(rows, n, before, after);
    forall i: nat | i <= n
      ensures Covered(rows, after, i)
    {
      CoverStep(rows, n, before, after, i);
    }
  }

  // The rows that should remain.
  function Expected(rows: seq<Row>): seq<Row> {
    var slots := SlotsOf(rows, |rows|);
    seq(|slots|, k requires 0 <= k < |slots| => rows[slots[k].last])
  }

  // No real key equals the key generated for a row without one.
  ghost predicate NoCollision(rows: seq<Row>) {
    forall k: nat | k < |SlotsOf(rows, |rows|)| && Blank(rows, SlotsOf(rows, |rows|)[k].first) ::
        KeyFree(rows, RowKey(k))
  }

  predicate KeyFree(rows: seq<Row>, key: string) {
    forall i | 0 <= i < |rows| :: rows[i].key != key
  }

  // ----------------------------------------------------- no collision, nothing is lost

  lemma {:induction false} SlotsStay(rows: seq<Row>, n: nat, m: nat, k: nat)
    requires n <= m <= |rows| && k < |SlotsOf(rows, n)|
    ensures k < |SlotsOf(rows, m)| && SlotsOf(rows, m)[k].first == SlotsOf(rows, n)[k].first
  {
    hide AddRow;
    if n < m { SlotsStay(rows, n, m - 1, k); }
  }

  lemma BlankSlotFree(rows: seq<Row>, n: nat, k: nat)
    requires n <= |rows| && NoCollision(rows) && k < |SlotsOf(rows, n)| && Blank(rows, SlotsOf(rows, n)[k].first)
    ensures KeyFree(rows, RowKey(k))
  {
    SlotsStay(rows, n, |rows|, k);
  }

  function SlotKey(rows: seq<Row>, slots: seq<Slot>, k: nat): string
    requires k < |slots| && InRange(rows, slots)
  {
    if rows[slots[k].first].key == "" then RowKey(k) else rows[slots[k].first].key
  }

  // The dictionary mirrors the slots.
  predicate Mirrors(rows: seq<Row>, dict: seq<Item>, slots: seq<Slot>)
    requires InRange(rows, slots)
  {
    |dict| == |slots| && forall k | 0 <= k < |slots| ::
        dict[k].key == SlotKey(rows, slots, k) && dict[k].row == rows[slots[k].last]
  }

  lemma {:induction false} FindIsFindSlot(rows: seq<Row>, dict: seq<Item>, slots: seq<Slot>, key: string, n: nat)
    requires InRange(rows, slots) && Mirrors(rows, dict, slots) && n <= |slots| && key != ""
    requires forall k: nat | k < |slots| && rows[slots[k].first].key == "" :: RowKey(k) != key
    ensures Find(dict, key, n) == FindSlot(rows, slots, key, n)
  {
    if n > 0 {
      assert dict[n - 1].key == SlotKey(rows, slots, n - 1);
      FindIsFindSlot(rows, dict, slots, key, n - 1);
    }
  }

  lemma {:induction false} GeneratedIsNew(rows: seq<Row>, dict: seq<Item>, slots: seq<Slot>, n: nat)
    requires InRange(rows, slots) && Mirrors(rows, dict, slots) && n <= |slots| && KeyFree(rows, RowKey(|slots|))
    ensures Find(dict, RowKey(|slots|), n).None?
  {
    if n > 0 {
      GeneratedIsNew(rows, dict, slots, n - 1);
      assert dict[n - 1].key == SlotKey(rows, slots, n - 1);
      if RowKey(n - 1) == RowKey(|slots|) { RowKeyInjective(n - 1, |slots|); }
    }
  }

  lemma BlankOpens(rows: seq<Row>, slots: seq<Slot>, n: nat)
    requires n < |rows| && InRange(rows, slots) && rows[n].key == ""
    ensures AddRow(rows, slots, n) == slots + [Slot(n, n)]
  {
  }

  lemma MirrorBlank(rows: seq<Row>, n: nat, dict: seq<Item>, slots: seq<Slot>)
    requires n < |rows| && InRange(rows, slots) && Mirrors(rows, dict, slots)
    requires rows[n].key == "" && KeyFree(rows, RowKey(|slots|))
    ensures Mirrors(rows, PutRow(dict, rows[n]), AddRow(rows, slots, n))
  {
    hide KeyFree, RowKey;
    BlankOpens(rows, slots, n);
    GeneratedIsNew(rows, dict, slots, |slots|);
  }

  lemma MirrorKeyed(rows: seq<Row>, n: nat, dict: seq<Item>, slots: seq<Slot>)
    requires n < |rows| && InRange(rows, slots) && Mirrors(rows, dict, slots) && rows[n].key != ""
    requires forall k: nat | k < |slots| && rows[slots[k].first].key == "" :: RowKey(k) != rows[n].key
    ensures Mirrors(rows, PutRow(dict, rows[n]), AddRow(rows, slots, n))
  {
    hide RowKey, Find, FindSlot;
    FindIsFindSlot(rows, dict, slots, rows[n].key, |slots|);
  }

  lemma MirrorStep(rows: seq<Row>, n: nat, dict: seq<Item>, slots: seq<Slot>)
    requires n < |rows| && InRange(rows, slots) && Mirrors(rows, dict, slots)
    requires rows[n].key == "" ==> KeyFree(rows, RowKey(|slots|))
    requires forall k: nat | k < |slots| && rows[slots[k].first].key == "" :: KeyFree(rows, RowKey(k))
    ensures Mirrors(rows, PutRow(dict, rows[n]), AddRow(rows, slots, n))
  {
    hide Mirrors, PutRow, AddRow;
    if rows[n].key == "" {
      MirrorBlank(rows, n, dict, slots);
    } else {
      MirrorKeyed(rows, n, dict, slots);
    }
  }

  lemma {:induction false} DedupMirrors(rows: seq<Row>, n: nat)
    requires n <= |rows| && NoCollision(rows)
    ensures Mirrors(rows, Dedup(rows, n), SlotsOf(rows, n))
  {
    hide AddRow, PutRow, KeyFree;
    if n > 0 {
      DedupMirrors(rows, n - 1);
      forall k: nat | k < |SlotsOf(rows, n - 1)| && rows[SlotsOf(rows, n - 1)[k].first].key == ""
        ensures KeyFree(rows, RowKey(k))
      {
        BlankSlotFree(rows, n - 1, k);
      }
      if rows[n - 1].key == "" {
        BlankOpens(rows, SlotsOf(rows, n - 1), n - 1);
        BlankSlotFree(rows, n, |SlotsOf(rows, n - 1)|);
      }
      MirrorStep(rows, n - 1, Dedup(rows, n - 1), SlotsOf(rows, n - 1));
    }
  }

  // ------------------------------------------------------------ a collision loses a row

  predicate HasKey(dict: seq<Item>, key: string) {
    exists k :: 0 <= k < |dict| && dict[k].key == key
  }

  lemma PutHasKey(dict: seq<Item>, row: Row, other: string)
    ensures HasKey(PutRow(dict, row), KeyFor(row, |dict|))
    ensures HasKey(dict, other) ==> HasKey(PutRow(dict, row), other)
  {
    var next, key := PutRow(dict, row), KeyFor(row, |dict|);
    var k := if Find(dict, key, |dict|).Some? then Find(dict, key, |dict|).value else |dict|;
    assert next[k].key == key;
    if HasKey(dict, other) {
      var j :| 0 <= j < |dict| && dict[j].key == other;
      assert next[j].key == other;
    }
  }

  lemma {:induction false} KeysStay(rows: seq<Row>, n: nat, m: nat, key: string)
    requires n <= m <= |rows| && HasKey(Dedup(rows, n), key)
    ensures HasKey(Dedup(rows, m), key)
  {
    hide PutRow, HasKey;
    if n < m {
      KeysStay(rows, n, m - 1, key);
      PutHasKey(Dedup(rows, m - 1), rows[m - 1], key);
    }
  }

  // The key under which row i was stored.
  function StoredKey(rows: seq<Row>, i: nat): string
    requires i < |rows|
  {
    KeyFor(rows[i], |Dedup(rows, i)|)
  }

  // Every key used so far is in the dictionary.
  lemma UsedKeyPresent(rows: seq<Row>, i: nat, n: nat)
    requires i < n <= |rows|
    ensures HasKey(Dedup(rows, n), StoredKey(rows, i))
  {
    hide HasKey;
    PutHasKey(Dedup(rows, i), rows[i], "");
    assert Dedup(rows, i + 1) == PutRow(Dedup(rows, i), rows[i]);
    KeysStay(rows, i + 1, n, StoredKey(rows, i));
  }

  lemma PresentKeyKeepsSize(dict: seq<Item>, key: string, row: Row)
    requires HasKey(dict, key)
    ensures |Put(dict, key, row)| == |dict|
  {
  }

  // How far the dictionary is behind the slots.
  function Gap(rows: seq<Row>, n: nat): int
    requires n <= |rows|
  {
    |SlotsOf(rows, n)| - |Dedup(rows, n)|
  }

  // A row that opens no slot has its key in the dictionary already.
  lemma JoinedKeyPresent(rows: seq<Row>, n: nat, slots: seq<Slot>)
    requires n < |rows| && slots == SlotsOf(rows, n) && |AddRow(rows, slots, n)| == |slots|
    ensures rows[n].key != "" && HasKey(Dedup(rows, n), rows[n].key)
  {
    SlotsAreCorrect(rows, n);
    var k := FindSlot(rows, slots, rows[n].key, |slots|).value;
    assert SlotCorrect(rows, n, slots[k]);
    UsedKeyPresent(rows, slots[k].first, n);
  }

  lemma GapStep(rows: seq<Row>, n: nat)
    requires n < |rows|
    ensures Gap(rows, n) <= Gap(rows, n + 1)
  {
    hide AddRow, HasKey;
    var dict, slots := Dedup(rows, n), SlotsOf(rows, n);
    assert Dedup(rows, n + 1) == PutRow(dict, rows[n]) && SlotsOf(rows, n + 1) == AddRow(rows, slots, n);
    if |AddRow(rows, slots, n)| == |slots| {
      JoinedKeyPresent(rows, n, slots);
      PresentKeyKeepsSize(dict, rows[n].key, rows[n]);
    }
  }

  lemma {:induction false} GapGrows(rows: seq<Row>, n: nat, m: nat)
    requires n <= m <= |rows|
    ensures Gap(rows, n) <= Gap(rows, m)
  {
    hide Gap;
    if n < m {
      GapGrows(rows, n, m - 1);
      GapStep(rows, m - 1);
    }
  }

  // When a slot opens for a key that is already in the dictionary, the dictionary falls behind.
  lemma MissedSlot(rows: seq<Row>, n: nat)
    requires n < |rows| && |SlotsOf(rows, n + 1)| > |SlotsOf(rows, n)|
    requires HasKey(Dedup(rows, n), StoredKey(rows, n))
    ensures Gap(rows, n) < Gap(rows, n + 1)
  {
    PresentKeyKeepsSize(Dedup(rows, n), StoredKey(rows, n), rows[n]);
    assert Dedup(rows, n + 1) == PutRow(Dedup(rows, n), rows[n]);
  }

  lemma FallsBehind(rows: seq<Row>, n: nat)
    requires n < |rows| && |SlotsOf(rows, n + 1)| > |SlotsOf(rows, n)|
    requires HasKey(Dedup(rows, n), StoredKey(rows, n))
    ensures Gap(rows, |rows|) > 0
  {
    MissedSlot(rows, n);
    GapGrows(rows, 0, n);
    GapGrows(rows, n + 1, |rows|);
    assert Gap(rows, 0) == 0;
  }

  // Which row opened slot k.
  lemma {:induction false} SlotOpens(rows: seq<Row>, n: nat, k: nat)
    requires n <= |rows| && k < |SlotsOf(rows, n)|
    ensures var i := SlotsOf(rows, n)[k].first;
            i < n && |SlotsOf(rows, i)| == k && |SlotsOf(rows, i + 1)| == k + 1
  {
    hide AddRow;
    if k < |SlotsOf(rows, n - 1)| { SlotOpens(rows, n - 1, k); }
  }

  // Two rows stored under one key but owning two slots.
  lemma SharedKeyLoses(rows: seq<Row>, i: nat, j: nat)
    requires i < j < |rows| && StoredKey(rows, i) == StoredKey(rows, j) && |SlotsOf(rows, j + 1)| > |SlotsOf(rows, j)|
    ensures Gap(rows, |rows|) > 0
  {
    UsedKeyPresent(rows, i, j);
    FallsBehind(rows, j);
  }

  lemma CollisionLoses(rows: seq<Row>, k: nat, s: nat)
    requires k < |SlotsOf(rows, |rows|)| && s < |SlotsOf(rows, |rows|)|
    requires rows[SlotsOf(rows, |rows|)[k].first].key == ""
    requires rows[SlotsOf(rows, |rows|)[s].first].key == RowKey(k)
    ensures Gap(rows, |rows|) > 0
  {
    hide AddRow, PutRow;
    var i, f := SlotsOf(rows, |rows|)[k].first, SlotsOf(rows, |rows|)[s].first;
    SlotOpens(rows, |rows|, k);
    SlotOpens(rows, |rows|, s);
    NeverAhead(rows, i);
    if Gap(rows, i) == 0 {
      assert StoredKey(rows, i) == RowKey(k) == StoredKey(rows, f);
      if f < i { SharedKeyLoses(rows, f, i); } else { SharedKeyLoses(rows, i, f); }
    }
  }

  lemma NeverAhead(rows: seq<Row>, n: nat)
    requires n <= |rows|
    ensures 0 <= Gap(rows, n) <= Gap(rows, |rows|)
  {
    GapGrows(rows, 0, n);
    GapGrows(rows, n, |rows|);
    assert Gap(rows, 0) == 0;
  }

  // A row with the generated key has a slot of its own.
  lemma OwnSlot(rows: seq<Row>, j: nat) returns (s: nat)
    requires j < |rows| && rows[j].key != ""
    ensures s < |SlotsOf(rows, |rows|)| && rows[SlotsOf(rows, |rows|)[s].first].key == rows[j].key
  {
    SlotsAreCorrect(rows, |rows|);
    assert Covered(rows, SlotsOf(rows, |rows|), j);
    s :| 0 <= s < |SlotsOf(rows, |rows|)| && Owns(rows, SlotsOf(rows, |rows|)[s], j);
  }

  lemma MirroredOutput(rows: seq<Row>, dict: seq<Item>, slots: seq<Slot>)
    requires InRange(rows, slots) && Mirrors(rows, dict, slots)
    ensures Rows(dict) == seq(|slots|, k requires 0 <= k < |slots| => rows[slots[k].last])
  {
  }

  /** The output is the latest row of every key and every row without a key, in order of first
      appearance, exactly when no real key equals a generated one. */
  lemma LatestRowsCorrectIff(rows: seq<Row>)
    ensures Rows(Dedup(rows, |rows|)) == Expected(rows) <==> NoCollision(rows)
    ensures !NoCollision(rows) ==> |Rows(Dedup(rows, |rows|))| < |Expected(rows)|
  {
    if NoCollision(rows) {
      DedupMirrors(rows, |rows|);
      MirroredOutput(rows, Dedup(rows, |rows|), SlotsOf(rows, |rows|));
    } else {
      var k: nat :| k < |SlotsOf(rows, |rows|)| && Blank(rows, SlotsOf(rows, |rows|)[k].first) &&
          !KeyFree(rows, RowKey(k));
      var j: nat :| j < |rows| && rows[j].key == RowKey(k);
      var s := OwnSlot(rows, j);
      CollisionLoses(rows, k, s);
      assert |Rows(Dedup(rows, |rows|))| < |Expected(rows)|;
    }
  }

  /** Keys that never look generated are always safe. */
  lemma PlainKeysAreSafe(rows: seq<Row>)
    requires forall i | 0 <= i < |rows| :: !("__row_" <= rows[i].key)
    ensures Rows(Dedup(rows, |rows|)) == Expected(rows)
  {
    assert forall k: nat :: "__row_" <= RowKey(k);
    LatestRowsCorrectIff(rows);
  }

  /** The loop keeps every keyless row and the latest row of every key, in order of first appearance,
      exactly when no real key equals a generated one; otherwise it returns fewer rows. */
  method LatestRows(rows: seq<Row>) returns (latest: seq<Row>)
    ensures latest == Expected(rows) <==> NoCollision(rows)
    ensures !NoCollision(rows) ==> |latest| < |Expected(rows)|
    ensures latest == Rows(Dedup(rows, |rows|))
  {
    var byRunKey: seq<Item> := [];
    for n := 0 to |rows|
      invariant byRunKey == Dedup(rows, n)
    {
      var runKey := rows[n].key;
      if runKey == "" {
        runKey := RowKey(|byRunKey|);
      }
      byRunKey := Put(byRunKey, runKey, rows[n]);
    }
    latest := Rows(byRunKey);
    LatestRowsCorrectIff(rows);
  }

  /** A keyless row followed by a row whose key is the generated one: the first row is lost. */
  lemma GeneratedKeyLosesRow(first: seq<string>, second: seq<string>)
    ensures var rows := [Row("", first), Row("__row_0", second)];
            !NoCollision(rows) && |Rows(Dedup(rows, 2))| == 1 && |Expected(rows)| == 2
  {
    var blank, keyed := Row("", first), Row("__row_0", second);
    var rows := [blank, keyed];
    assert Digits(0) == "0" && RowKey(0) == "__row_0";
    assert Dedup(rows, 0) == [] && Dedup(rows, 1) == [Item("__row_0", blank)];
    assert Find(Dedup(rows, 1), "__row_0", 1) == Some(0);
    assert Dedup(rows, 2) == [Item("__row_0", keyed)];
    assert SlotsOf(rows, 0) == [] && SlotsOf(rows, 1) == [Slot(0, 0)];
    assert |SlotsOf(rows, 2)| == 2 && SlotsOf(rows, 2)[0].first == 0;
    assert Blank(rows, 0) && !KeyFree(rows, RowKey(0)) by { assert rows[1].key == RowKey(0); }
  }
}
