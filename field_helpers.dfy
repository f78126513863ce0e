/**
 * Field identifiers and dataset cleaning for table creation: each column gets a
 * permanent field id (a UUID), keeps its name as label, and gets a physical column
 * name made of its slug and a random six-letter suffix; the synthetic row-key column
 * keeps its name. The randomness and the slug function are inputs of the model.
 */
module FieldHelpers {
  import opened Common

  /** The synthetic row-key column, addressable under its own name. */
  const ReservedRowKey: string := "rcd___id"

  /** The `k`-th letter of Python's `string.ascii_letters`: "a" to "z", then "A" to "Z". */
  function LetterAt(k: nat): char
    requires k < 52
  {
    if k < 26 then ('a' as int + k) as char else ('A' as int + (k - 26)) as char
  }


  const DefaultSuffixLength: nat := 6

  predicate IsAsciiLetter(c: char) {
    'a' <= c <= 'z' || 'A' <= c <= 'Z'
  }

  /** The characters the slug pattern `[^a-z0-9_]+` leaves in place. */
  predicate IsSlugChar(c: char) {
    'a' <= c <= 'z' || '0' <= c <= '9' || c == '_'
  }

  /** Characters safe in a physical column name: slug characters and ASCII letters. */
  predicate IsIdChar(c: char) {
    IsSlugChar(c) || IsAsciiLetter(c)
  }

  /** Draws of `random.choices(string.ascii_letters, k=...)`: each one indexes the alphabet. */
  predicate ValidDraws(draws: seq<nat>) {
    forall i :: 0 <= i < |draws| ==> draws[i] < 52
  }

  /** The enumeration runs "a".."z" then "A".."Z", each position a letter. */
  lemma LetterAtIsAsciiLetters()
    ensures LetterAt(0) == 'a' && LetterAt(25) == 'z' && LetterAt(26) == 'A' && LetterAt(51) == 'Z'
    ensures forall k :: 0 <= k < 52 ==> IsAsciiLetter(LetterAt(k))
  {
  }

  /** The random suffix the draws select. */
  function RandomSuffix(draws: seq<nat>): (r: string)
    requires ValidDraws(draws)
    ensures |r| == |draws|
    ensures forall i :: 0 <= i < |r| ==> IsAsciiLetter(r[i])
  {
    seq(|draws|, i requires 0 <= i < |draws| => LetterAt(draws[i]))
  }

  /**
   * `generate_field_id(column_name, length)`: the reserved row-key name is returned
   * unchanged; any other name becomes its slug, an underscore and `length` random letters.
   */
  function GenerateFieldId(columnName: string, slugify: string -> string, draws: seq<nat>,
                           length: nat := DefaultSuffixLength): (r: string)
    requires |draws| == length && ValidDraws(draws)
    ensures columnName == ReservedRowKey ==> r == ReservedRowKey
    ensures columnName != ReservedRowKey ==>
              var slug := slugify(columnName);
              && |r| == |slug| + 1 + length
              && r[..|slug|] == slug && r[|slug|] == '_'
              && forall i :: |slug| < i < |r| ==> IsAsciiLetter(r[i])
  {
    if columnName == ReservedRowKey then ReservedRowKey
    else
      var randomSuffix := RandomSuffix(draws);
      var slugifiedName := slugify(columnName);
      assert forall i :: |slugifiedName| < i < |slugifiedName| + 1 + length ==>
        (slugifiedName + "_" + randomSuffix)[i] == randomSuffix[i - |slugifiedName| - 1];
      slugifiedName + "_" + randomSuffix
  }

  /** Splits a generated id into its slug and its suffix of the given length. */
  function SplitFieldId(id: string, length: nat): (r: (string, string))
    requires |id| > length
  {
    (id[..|id| - length - 1], id[|id| - length..])
  }

  /** The slug and the random suffix can be read back from a generated id. */
  lemma FieldIdRoundTrip(columnName: string, slugify: string -> string, draws: seq<nat>)
    requires |draws| == DefaultSuffixLength && ValidDraws(draws)
    requires columnName != ReservedRowKey
    ensures var id := GenerateFieldId(columnName, slugify, draws);
            |id| > DefaultSuffixLength
            && SplitFieldId(id, DefaultSuffixLength) == (slugify(columnName), RandomSuffix(draws))
  {
    var slug := slugify(columnName);
    var id := GenerateFieldId(columnName, slugify, draws);
    assert id == slug + "_" + RandomSuffix(draws);
    assert id[..|slug|] == slug;
    assert id[|id| - DefaultSuffixLength..] == RandomSuffix(draws);
  }

  /**
   * With a suffix of three letters or more, no other column can be given the row key's
   * name: its last three characters would have to be "_id".
   */
  lemma GeneratedIdNotReserved(columnName: string, slugify: string -> string, draws: seq<nat>, length: nat)
    requires |draws| == length && ValidDraws(draws) && length >= 3
    ensures GenerateFieldId(columnName, slugify, draws, length) == ReservedRowKey <==> columnName == ReservedRowKey
  {
    var id := GenerateFieldId(columnName, slugify, draws, length);
    if columnName != ReservedRowKey {
      var slug := slugify(columnName);
      if |id| == |ReservedRowKey| {
        assert |slug| < 5 && IsAsciiLetter(id[5]);
        assert !IsAsciiLetter(ReservedRowKey[5]);
      }
    }
  }

  /** An id built from a well-behaved slug holds only letters, digits and underscores. */
  lemma FieldIdCharset(columnName: string, slugify: string -> string, draws: seq<nat>, length: nat)
    requires |draws| == length && ValidDraws(draws)
    requires forall i :: 0 <= i < |slugify(columnName)| ==> IsSlugChar(slugify(columnName)[i])
    ensures var id := GenerateFieldId(columnName, slugify, draws, length);
            forall i :: 0 <= i < |id| ==> IsIdChar(id[i])
  {
    var slug := slugify(columnName);
    var id := GenerateFieldId(columnName, slugify, draws, length);
    if columnName != ReservedRowKey {
      forall i | 0 <= i < |id| ensures IsIdChar(id[i]) {
        if i < |slug| {
          assert id[i] == id[..|slug|][i] == slug[i];
        }
      }
    }
  }

  /** One entry of `generate_field_metadata`: the keys `fld___id`, `label` (here `displayLabel`, `label` being a Dafny keyword) and `id`. */
  datatype FieldMetadata = FieldMetadata(fldId: string, displayLabel: string, id: string)

  /** The randomness a table creation consumes: per column, a fresh UUID and six letter draws. */
  datatype Entropy = Entropy(uuids: seq<string>, draws: seq<seq<nat>>)

  predicate Supplies(entropy: Entropy, columns: seq<string>) {
    && |entropy.uuids| == |columns|
    && |entropy.draws| == |columns|
    && forall i :: 0 <= i < |columns| ==>
         |entropy.draws[i]| == DefaultSuffixLength && ValidDraws(entropy.draws[i])
  }

  function Rest(entropy: Entropy): Entropy
  {
    Entropy(if entropy.uuids == [] then [] else entropy.uuids[1..],
            if entropy.draws == [] then [] else entropy.draws[1..])
  }

  /** `generate_field_metadata(df)`: one entry per column, in column order. */
  function GenerateFieldMetadata(columns: seq<string>, slugify: string -> string, entropy: Entropy)
    : (r: seq<FieldMetadata>)
    requires Supplies(entropy, columns)
    ensures |r| == |columns|
  {
    if columns == [] then []
    else
      assert Supplies(Rest(entropy), columns[1..]) by {
        forall i | 0 <= i < |columns[1..]|
          ensures |Rest(entropy).draws[i]| == DefaultSuffixLength && ValidDraws(Rest(entropy).draws[i])
        {
          assert Rest(entropy).draws[i] == entropy.draws[i + 1];
        }
      }
      [FieldMetadata(entropy.uuids[0], columns[0], GenerateFieldId(columns[0], slugify, entropy.draws[0]))]
        + GenerateFieldMetadata(columns[1..], slugify, Rest(entropy))
  }

  /** Entry `i` describes column `i`: its label, the `i`-th fresh UUID and an id generated from the label. */
  lemma {:induction false} MetadataEntries(columns: seq<string>, slugify: string -> string, entropy: Entropy)
    requires Supplies(entropy, columns)
    ensures var meta := GenerateFieldMetadata(columns, slugify, entropy);
            forall i :: 0 <= i < |columns| ==>
              && meta[i].displayLabel == columns[i]
              && meta[i].fldId == entropy.uuids[i]
              && meta[i].id == GenerateFieldId(columns[i], slugify, entropy.draws[i])
    decreases |columns|
  {
    if columns != [] {
      var rest := Rest(entropy);
      MetadataEntries(columns[1..], slugify, rest);
      var meta := GenerateFieldMetadata(columns, slugify, entropy);
      forall i | 1 <= i < |columns|
        ensures && meta[i].displayLabel == columns[i]
                && meta[i].fldId == entropy.uuids[i]
                && meta[i].id == GenerateFieldId(columns[i], slugify, entropy.draws[i])
      {
        assert meta[i] == GenerateFieldMetadata(columns[1..], slugify, rest)[i - 1];
        assert rest.uuids[i - 1] == entropy.uuids[i] && rest.draws[i - 1] == entropy.draws[i];
      }
    }
  }

  /** Only the row-key column is given the row key's name as its id. */
  lemma MetadataReservesRowKey(columns: seq<string>, slugify: string -> string, entropy: Entropy)
    requires Supplies(entropy, columns)
    ensures var meta := GenerateFieldMetadata(columns, slugify, entropy);
            forall i :: 0 <= i < |meta| ==> (meta[i].id == ReservedRowKey <==> columns[i] == ReservedRowKey)
  {
    var meta := GenerateFieldMetadata(columns, slugify, entropy);
    MetadataEntries(columns, slugify, entropy);
    forall i | 0 <= i < |meta| ensures meta[i].id == ReservedRowKey <==> columns[i] == ReservedRowKey {
      GeneratedIdNotReserved(columns[i], slugify, entropy.draws[i], DefaultSuffixLength);
    }
  }

  // ---------------------------------------------------------------- cleaning

  /** A dataset with every cell already converted to its string form. */
  datatype Frame = Frame(columns: seq<string>, rows: seq<seq<string>>)

  /** The string forms of missing values that cleaning blanks out. */
  predicate IsNullLike(cell: string) {
    cell == "nan" || cell == "NaN" || cell == "None"
  }

  /** Whole-cell replacement of a null-like string by the empty string. */
  function CleanCell(cell: string): (r: string)
    ensures IsNullLike(cell) ==> r == ""
    ensures !IsNullLike(cell) ==> r == cell
  {
    if IsNullLike(cell) then "" else cell
  }

  /** `clean_dataframe`: same columns and shape, every cell cleaned. */
  function CleanFrame(f: Frame): (r: Frame)
    ensures r.columns == f.columns && |r.rows| == |f.rows|
    ensures forall i :: 0 <= i < |f.rows| ==> |r.rows[i]| == |f.rows[i]|
    ensures forall i, j :: 0 <= i < |f.rows| && 0 <= j < |f.rows[i]| ==> r.rows[i][j] == CleanCell(f.rows[i][j])
  {
    Frame(f.columns, seq(|f.rows|, i requires 0 <= i < |f.rows| =>
      seq(|f.rows[i]|, j requires 0 <= j < |f.rows[i]| => CleanCell(f.rows[i][j]))))
  }

  /** A cleaned dataset holds no null-like cell. */
  lemma CleanedHasNoNullLike(f: Frame)
    ensures var r := CleanFrame(f);
            forall i, j :: 0 <= i < |r.rows| && 0 <= j < |r.rows[i]| ==> !IsNullLike(r.rows[i][j])
  {
  }

  /** Cleaning twice is cleaning once. */
  lemma CleanIdempotent(f: Frame)
    ensures CleanFrame(CleanFrame(f)) == CleanFrame(f)
  {
    var once := CleanFrame(f);
    var twice := CleanFrame(once);
    forall i | 0 <= i < |once.rows| ensures twice.rows[i] == once.rows[i] {
    }
  }

  /** Matching is whole-cell: text that merely contains a null-like word is kept. */
  lemma CleanIsWholeCell()
    ensures CleanCell("nano") == "nano" && CleanCell("None given") == "None given"
    ensures CleanCell("NaN") == "" && CleanCell("nan") == "" && CleanCell("None") == ""
  {
  }
}
