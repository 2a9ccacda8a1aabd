/** Fields under numbered keys, such as `task_metadata_3_value`, and what a map keeps of them. */
module IndexedFields {
  import opened Decimal
  import opened TextCodec
  import opened LogText

  /** How a family of keys is built: a prefix, a number, a separator, one of the suffixes. */
  datatype Family = Family(prefix: string, separator: char, suffixes: seq<string>)

  predicate WellFormed(fam: Family) {
    && !IsDigit(fam.separator)
    && forall i, j :: 0 <= i < j < |fam.suffixes| ==> fam.suffixes[i] != fam.suffixes[j]
  }

  function Key(fam: Family, i: nat, suffix: string): string {
    fam.prefix + (NatText(i) + [fam.separator] + suffix)
  }

  /** A key names its number and its suffix. */
  lemma KeyInjective(fam: Family, i: nat, suffix: string, j: nat, suffix': string)
    requires !IsDigit(fam.separator) && Key(fam, i, suffix) == Key(fam, j, suffix')
    ensures i == j && suffix == suffix'
  {
    var rest, rest' := NatText(i) + [fam.separator] + suffix, NatText(j) + [fam.separator] + suffix';
    assert rest == Key(fam, i, suffix)[|fam.prefix|..] && rest' == Key(fam, j, suffix')[|fam.prefix|..];
    FoundAt(NatText(i), fam.separator, suffix);
    FoundAt(NatText(j), fam.separator, suffix');
    NatTextInjective(i, j);
  }

  predicate HasPrefix(key: string, prefix: string) { prefix <= key }

  /** The fields of row `i`. */
  function Row(fam: Family, i: nat, values: seq<string>): seq<Field>
    requires |values| == |fam.suffixes|
  {
    seq(|values|, j requires 0 <= j < |values| => Field(Key(fam, i, fam.suffixes[j]), values[j]))
  }

  /** The fields of the first `n` rows. */
  function Block(fam: Family, rows: seq<seq<string>>, n: nat): seq<Field>
    requires n <= |rows| && forall row <- rows :: |row| == |fam.suffixes|
  {
    if n == 0 then [] else Block(fam, rows, n - 1) + Row(fam, n - 1, rows[n - 1])
  }

  // ---- What the map keeps ----

  /** Among these fields, `value` is the last one under `key`. */
  predicate Has(fields: seq<Field>, key: string, value: string) {
    var kept := Collected(fields, |fields|);
    key in kept && kept[key] == value
  }

  predicate Free(fields: seq<Field>, key: string) {
    forall f <- fields :: f.key != key
  }

  lemma {:induction false} CollectedPrefix(a: seq<Field>, b: seq<Field>, n: nat)
    requires n <= |a|
    ensures Collected(a + b, n) == Collected(a, n)
  {
    if n > 0 {
      CollectedPrefix(a, b, n - 1);
    }
  }

  lemma {:induction false} HasKeptTo(a: seq<Field>, b: seq<Field>, key: string, value: string, n: nat)
    requires Has(a, key, value) && Free(b, key) && n <= |b|
    ensures key in Collected(a + b, |a| + n) && Collected(a + b, |a| + n)[key] == value
  {
    if n == 0 {
      CollectedPrefix(a, b, |a|);
    } else {
      HasKeptTo(a, b, key, value, n - 1);
      assert b[n - 1] in b && (a + b)[|a| + n - 1] == b[n - 1];
    }
  }

  /** Fields under other keys do not matter. */
  lemma HasKept(a: seq<Field>, b: seq<Field>, key: string, value: string)
    requires Has(a, key, value) && Free(b, key)
    ensures Has(a + b, key, value)
  {
    HasKeptTo(a, b, key, value, |b|);
  }

  lemma HasNew(a: seq<Field>, f: Field)
    ensures Has(a + [f], f.key, f.value)
  {
    CollectedHas(a + [f], |a| + 1, |a|);
  }

  lemma HasFirst(f: Field, rest: seq<Field>)
    requires Free(rest, f.key)
    ensures Has([f] + rest, f.key, f.value)
  {
    HasNew([], f);
    assert [] + [f] == [f];
    HasKept([f], rest, f.key, f.value);
  }

  lemma HasThrough(a: seq<Field>, f: Field, b: seq<Field>, c: seq<Field>)
    requires Free(b, f.key) && Free(c, f.key)
    ensures Has(a + [f] + b + c, f.key, f.value)
  {
    HasNew(a, f);
    HasKept(a + [f], b, f.key, f.value);
    HasKept(a + [f] + b, c, f.key, f.value);
  }

  lemma RowHas(a: seq<Field>, fam: Family, i: nat, values: seq<string>, j: nat)
    requires WellFormed(fam) && |values| == |fam.suffixes| && j < |values|
    ensures Has(a + Row(fam, i, values), Key(fam, i, fam.suffixes[j]), values[j])
  {
    var row := Row(fam, i, values);
    var fields := a + row;
    forall k | |a| + j < k < |fields|
      ensures fields[k].key != row[j].key
    {
      assert fields[k] == row[k - |a|];
      if fields[k].key == row[j].key {
        KeyInjective(fam, i, fam.suffixes[k - |a|], i, fam.suffixes[j]);
      }
    }
    assert fields[|a| + j] == row[j];
    CollectedHas(fields, |fields|, |a| + j);
  }

  lemma RowIsFree(fam: Family, n: nat, values: seq<string>, i: nat, suffix: string)
    requires !IsDigit(fam.separator) && |values| == |fam.suffixes| && i != n
    ensures Free(Row(fam, n, values), Key(fam, i, suffix))
  {
    forall j | 0 <= j < |values|
      ensures Row(fam, n, values)[j].key != Key(fam, i, suffix)
    {
      if Row(fam, n, values)[j].key == Key(fam, i, suffix) {
        KeyInjective(fam, n, fam.suffixes[j], i, suffix);
      }
    }
  }

  lemma RowOutlasts(before: seq<Field>, fam: Family, n: nat, values: seq<string>, i: nat, suffix: string, value: string)
    requires !IsDigit(fam.separator) && |values| == |fam.suffixes| && i != n
    requires Has(before, Key(fam, i, suffix), value)
    ensures Has(before + Row(fam, n, values), Key(fam, i, suffix), value)
  {
    RowIsFree(fam, n, values, i, suffix);
    HasKept(before, Row(fam, n, values), Key(fam, i, suffix), value);
  }

  lemma BlockUnfolds(a: seq<Field>, fam: Family, rows: seq<seq<string>>, n: nat)
    requires 0 < n <= |rows| && forall row <- rows :: |row| == |fam.suffixes|
    ensures a + Block(fam, rows, n) == a + Block(fam, rows, n - 1) + Row(fam, n - 1, rows[n - 1])
  {
  }

  /** The field of row `i` after one more row: its own, or one that was there before. */
  lemma LastRowHas(before: seq<Field>, fam: Family, n: nat, values: seq<string>, i: nat, j: nat, value: string)
    requires WellFormed(fam) && |values| == |fam.suffixes| && j < |values|
    requires if i == n then values[j] == value else Has(before, Key(fam, i, fam.suffixes[j]), value)
    ensures Has(before + Row(fam, n, values), Key(fam, i, fam.suffixes[j]), value)
  {
    if i == n {
      RowHas(before, fam, i, values, j);
    } else {
      RowOutlasts(before, fam, n, values, i, fam.suffixes[j], value);
    }
  }

  /** Every field of a block is kept. */
  lemma {:induction false} BlockHas(a: seq<Field>, fam: Family, rows: seq<seq<string>>, n: nat, i: nat, j: nat)
    requires WellFormed(fam) && i < n <= |rows| && j < |fam.suffixes|
    requires forall row <- rows :: |row| == |fam.suffixes|
    ensures Has(a + Block(fam, rows, n), Key(fam, i, fam.suffixes[j]), rows[i][j])
  {
    if i < n - 1 {
      BlockHas(a, fam, rows, n - 1, i, j);
    }
    LastRowHas(a + Block(fam, rows, n - 1), fam, n - 1, rows[n - 1], i, j, rows[i][j]);
    BlockUnfolds(a, fam, rows, n);
  }

  /** A block has no key but those of its family. */
  lemma {:induction false} BlockIsFree(fam: Family, rows: seq<seq<string>>, n: nat, key: string)
    requires n <= |rows| && forall row <- rows :: |row| == |fam.suffixes|
    requires !exists i, suffix :: key == Key(fam, i, suffix)
    ensures Free(Block(fam, rows, n), key)
  {
    if n > 0 {
      BlockIsFree(fam, rows, n - 1, key);
    }
  }

  lemma {:induction false} BlockPrintable(fam: Family, rows: seq<seq<string>>, n: nat, format: Format)
    requires n <= |rows| && forall row <- rows :: |row| == |fam.suffixes|
    requires IsWord(fam.prefix) && WordChar(fam.separator) && forall suffix <- fam.suffixes :: IsWord(suffix)
    requires forall row <- rows :: forall value <- row :: Plain(value)
    requires format.marker != "" && !WordChar(format.marker[0])
    ensures forall f <- Block(fam, rows, n) :: Printable(format, f)
  {
    if n > 0 {
      BlockPrintable(fam, rows, n - 1, format);
      var values := rows[n - 1];
      var row := Row(fam, n - 1, values);
      assert values in rows;
      forall j | 0 <= j < |values|
        ensures Printable(format, row[j])
      {
        assert values[j] in values && fam.suffixes[j] in fam.suffixes;
        KeyIsWord(fam, n - 1, fam.suffixes[j]);
        KeyedFieldPrintable(format, row[j]);
      }
    }
  }

  lemma KeyIsWord(fam: Family, i: nat, suffix: string)
    requires IsWord(fam.prefix) && WordChar(fam.separator) && IsWord(suffix)
    ensures IsWord(Key(fam, i, suffix))
  {
    assert AllDigits(NatText(i));
  }

  // ---- Counted blocks ----

  function CountKey(fam: Family): string {
    fam.prefix + "count"
  }

  /** The number of rows, then the rows. */
  function Counted(fam: Family, rows: seq<seq<string>>): seq<Field>
    requires forall row <- rows :: |row| == |fam.suffixes|
  {
    [Field(CountKey(fam), NatText(|rows|))] + Block(fam, rows, |rows|)
  }

  lemma {:induction false} BlockHasPrefix(fam: Family, rows: seq<seq<string>>, n: nat)
    requires n <= |rows| && forall row <- rows :: |row| == |fam.suffixes|
    ensures forall f <- Block(fam, rows, n) :: HasPrefix(f.key, fam.prefix)
  {
    if n > 0 {
      BlockHasPrefix(fam, rows, n - 1);
    }
  }

  /** A counted block has no key without the prefix of its family. */
  lemma CountedIsFree(fam: Family, rows: seq<seq<string>>, key: string)
    requires (forall row <- rows :: |row| == |fam.suffixes|) && !HasPrefix(key, fam.prefix)
    ensures Free(Counted(fam, rows), key)
  {
    BlockHasPrefix(fam, rows, |rows|);
    assert HasPrefix(CountKey(fam), fam.prefix);
  }

  lemma CountIsNoRow(fam: Family, i: nat, suffix: string)
    ensures Key(fam, i, suffix) != CountKey(fam)
  {
    var k := |fam.prefix|;
    assert Key(fam, i, suffix)[k] == NatText(i)[0] && NatText(i)[0] in NatText(i);
    assert CountKey(fam)[k] == 'c';
  }

  /** No field has a key of the family. */
  predicate Outside(fields: seq<Field>, fam: Family) {
    forall f <- fields :: !HasPrefix(f.key, fam.prefix)
  }

  lemma OutsideIsFree(fields: seq<Field>, fam: Family, key: string)
    requires Outside(fields, fam) && HasPrefix(key, fam.prefix)
    ensures Free(fields, key)
  {
  }

  lemma CountIsFree(fam: Family, rows: seq<seq<string>>, n: nat)
    requires n <= |rows| && forall row <- rows :: |row| == |fam.suffixes|
    ensures Free(Block(fam, rows, n), CountKey(fam))
  {
    forall i: nat, suffix: string
      ensures Key(fam, i, suffix) != CountKey(fam)
    {
      CountIsNoRow(fam, i, suffix);
    }
    BlockIsFree(fam, rows, n, CountKey(fam));
  }

  lemma Regrouped(a: seq<Field>, f: Field, b: seq<Field>, c: seq<Field>)
    ensures a + ([f] + b) + c == a + [f] + b + c
  {
  }

  /** A counted block among other fields is found in the map: the count, and every row. */
  lemma CountKept(a: seq<Field>, fam: Family, rows: seq<seq<string>>, rest: seq<Field>)
    requires (forall row <- rows :: |row| == |fam.suffixes|) && Outside(rest, fam)
    ensures Has(a + Counted(fam, rows) + rest, CountKey(fam), NatText(|rows|))
  {
    CountIsFree(fam, rows, |rows|);
    OutsideIsFree(rest, fam, CountKey(fam));
    HasThrough(a, Field(CountKey(fam), NatText(|rows|)), Block(fam, rows, |rows|), rest);
    Regrouped(a, Field(CountKey(fam), NatText(|rows|)), Block(fam, rows, |rows|), rest);
  }

  lemma RowKept(a: seq<Field>, fam: Family, rows: seq<seq<string>>, rest: seq<Field>, i: nat, j: nat)
    requires WellFormed(fam) && (forall row <- rows :: |row| == |fam.suffixes|) && Outside(rest, fam)
    requires i < |rows| && j < |fam.suffixes|
    ensures Has(a + Counted(fam, rows) + rest, Key(fam, i, fam.suffixes[j]), rows[i][j])
  {
    var start, block := a + [Field(CountKey(fam), NatText(|rows|))], Block(fam, rows, |rows|);
    BlockHas(start, fam, rows, |rows|, i, j);
    OutsideIsFree(rest, fam, Key(fam, i, fam.suffixes[j]));
    HasKept(start + block, rest, Key(fam, i, fam.suffixes[j]), rows[i][j]);
    Regrouped(a, Field(CountKey(fam), NatText(|rows|)), block, rest);
  }

  /** Families whose prefixes differ in their first letter do not meet. */
  lemma {:induction false} BlockIsOutside(fam: Family, rows: seq<seq<string>>, n: nat, other: Family)
    requires n <= |rows| && forall row <- rows :: |row| == |fam.suffixes|
    requires fam.prefix != "" && other.prefix != "" && fam.prefix[0] != other.prefix[0]
    ensures Outside(Block(fam, rows, n), other)
  {
    if n > 0 {
      BlockIsOutside(fam, rows, n - 1, other);
    }
  }

  lemma CountedIsOutside(fam: Family, rows: seq<seq<string>>, other: Family)
    requires forall row <- rows :: |row| == |fam.suffixes|
    requires fam.prefix != "" && other.prefix != "" && fam.prefix[0] != other.prefix[0]
    ensures Outside(Counted(fam, rows), other)
  {
    BlockIsOutside(fam, rows, |rows|, other);
  }

  lemma CountedPrintable(fam: Family, rows: seq<seq<string>>, format: Format)
    requires forall row <- rows :: |row| == |fam.suffixes|
    requires IsWord(fam.prefix) && WordChar(fam.separator) && forall suffix <- fam.suffixes :: IsWord(suffix)
    requires forall row <- rows :: forall value <- row :: Plain(value)
    requires format.marker != "" && !WordChar(format.marker[0])
    ensures forall f <- Counted(fam, rows) :: Printable(format, f)
  {
    BlockPrintable(fam, rows, |rows|, format);
    DigitsArePlain(|rows|);
    assert IsWord("count");
    KeyedFieldPrintable(format, Field(CountKey(fam), NatText(|rows|)));
  }
}
