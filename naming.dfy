/** How the artifacts of each layer are named, locally and in the bucket. */
module Naming {
  import opened Paths

  const RawPrefix := "raw/"
  const SilverPrefix := "silver/"
  const GoldPrefix := "gold/"
  const CsvExt := ".csv"
  const ParquetExt := ".parquet"
  const GoldParquet := "_gold.parquet"

  /** Bucket key of the Bronze copy of a file. */
  function RawKey(name: string): string { RawPrefix + name }

  /** Base name of the Silver artifact: every `.csv` becomes `.parquet`. */
  function SilverName(base: string): string { Replace(base, CsvExt, ParquetExt) }

  /** Local path of the Silver artifact: beside the input. */
  function SilverPath(input: string): string {
    Join(Dirname(input), SilverName(Basename(input)))
  }

  function SilverKey(name: string): string { SilverPrefix + name }

  /** Base name of the Gold artifact: every `.parquet` becomes `_gold.parquet`. */
  function GoldName(base: string): string { Replace(base, ParquetExt, GoldParquet) }

  /** Local path of the Gold artifact: beside the Silver one. */
  function GoldPath(silver: string): string {
    Join(Dirname(silver), GoldName(Basename(silver)))
  }

  function GoldKey(name: string): string { GoldPrefix + name }

  /** A derived name never holds a separator, and is empty only when the
      name it came from is. */
  lemma DerivedNames(base: string)
    requires Sep !in base
    ensures Sep !in SilverName(base) && Sep !in GoldName(base)
    ensures (SilverName(base) == []) == (base == []) && (GoldName(base) == []) == (base == [])
  {
    ReplaceAvoids(base, CsvExt, ParquetExt, Sep);
    ReplaceAvoids(base, ParquetExt, GoldParquet, Sep);
    ReplaceLength(base, CsvExt, ParquetExt);
    ReplaceLength(base, ParquetExt, GoldParquet);
    if base == [] {
      assert SilverName(base) == [] && GoldName(base) == [];
    }
  }

  /** A file with a base name gets a Gold path that is not empty. */
  lemma GoldPathNonEmpty(input: string)
    requires Basename(input) != []
    ensures GoldPath(SilverPath(input)) != []
  {
    var name := Basename(input);
    DerivedNames(name);
    SilverBasename(input);
    DerivedNames(SilverName(name));
    JoinEndsWith(Dirname(SilverPath(input)), GoldName(SilverName(name)));
  }

  /** The base name of the Silver path is the name uploaded under `silver/`. */
  lemma SilverBasename(input: string)
    ensures Basename(SilverPath(input)) == SilverName(Basename(input))
  {
    DerivedNames(Basename(input));
    BasenameOfJoin(Dirname(input), SilverName(Basename(input)));
  }

  /** The key the pipeline validates, `gold/` plus the base name of the Gold
      path, is the key the Gold artifact was uploaded under. */
  lemma GoldKeyAgrees(silver: string)
    ensures GoldKey(Basename(GoldPath(silver))) == GoldKey(GoldName(Basename(silver)))
  {
    DerivedNames(Basename(silver));
    BasenameOfJoin(Dirname(silver), GoldName(Basename(silver)));
  }

  lemma JoinSameDirLonger(d: string, x: string, y: string)
    requires |x| < |y| && (x == [] || x[0] != Sep) && y[0] != Sep
    ensures Join(d, x) != Join(d, y)
  {
    assert |Join(d, x)| < |Join(d, y)|;
  }

  /** The Silver artifact lands on the input path itself exactly when the
      input's base name holds no `.csv`: the parquet then overwrites the
      input. */
  lemma SilverPathIsInputIff(input: string)
    requires NoDoubleSep(input)
    ensures SilverPath(input) == input <==> !Contains(Basename(input), CsvExt)
  {
    var b := Basename(input);
    JoinDirnameBasename(input);
    if Contains(b, CsvExt) {
      ReplaceLength(b, CsvExt, ParquetExt);
      DerivedNames(b);
      ShortNeverContains([], CsvExt);
      assert b != [];
      assert b[0] in b && SilverName(b)[0] in SilverName(b);
      JoinSameDirLonger(Dirname(input), b, SilverName(b));
    } else {
      ReplaceAbsent(b, CsvExt, ParquetExt);
    }
  }

  /** Likewise the Gold artifact lands on the Silver path exactly when the
      Silver base name holds no `.parquet`. */
  lemma GoldPathIsSilverIff(silver: string)
    requires NoDoubleSep(silver)
    ensures GoldPath(silver) == silver <==> !Contains(Basename(silver), ParquetExt)
  {
    var b := Basename(silver);
    JoinDirnameBasename(silver);
    if Contains(b, ParquetExt) {
      ReplaceLength(b, ParquetExt, GoldParquet);
      DerivedNames(b);
      ShortNeverContains([], ParquetExt);
      assert b != [];
      assert b[0] in b && GoldName(b)[0] in GoldName(b);
      JoinSameDirLonger(Dirname(silver), b, GoldName(b));
    } else {
      ReplaceAbsent(b, ParquetExt, GoldParquet);
    }
  }

  /** The three layers never share a bucket key, whatever the names: the
      prefixes differ in their first character, so no `raw/` key lies under
      `silver/` or `gold/`, and no `silver/` key under `gold/`. */
  lemma KeysDistinct(a: string, b: string, c: string)
    ensures RawKey(a) != SilverKey(b) && RawKey(a) != GoldKey(c) && SilverKey(b) != GoldKey(c)
    ensures !StartsWith(RawKey(a), SilverPrefix) && !StartsWith(RawKey(a), GoldPrefix)
    ensures !StartsWith(SilverKey(b), GoldPrefix)
  {
    assert RawKey(a)[0] == 'r' && SilverKey(b)[0] == 's' && GoldKey(c)[0] == 'g';
  }

  /** A file named `<stem>.csv`, the stem not holding `.csv` (it may hold
      other dots, as `sales.2024`), gets the Silver name `<stem>.parquet`. */
  lemma CsvBecomesParquet(stem: string)
    requires !Contains(stem, CsvExt)
    ensures SilverName(stem + CsvExt) == stem + ParquetExt
  {
    ReplaceTrailing(stem, CsvExt, ParquetExt);
  }

  /** A Silver file named `<stem>.parquet`, the stem not holding `.parquet`,
      gets the Gold name `<stem>_gold.parquet`. */
  lemma ParquetBecomesGold(stem: string)
    requires !Contains(stem, ParquetExt)
    ensures GoldName(stem + ParquetExt) == stem + GoldParquet
  {
    ReplaceTrailing(stem, ParquetExt, GoldParquet);
  }

  /** A stem without a dot gets both renamings of a plain `<stem>.csv`. */
  lemma DotlessStem(stem: string)
    requires '.' !in stem
    ensures SilverName(stem + CsvExt) == stem + ParquetExt
    ensures GoldName(stem + ParquetExt) == stem + GoldParquet
  {
    AbsentHeadNeverContains(stem, CsvExt);
    AbsentHeadNeverContains(stem, ParquetExt);
    CsvBecomesParquet(stem);
    ParquetBecomesGold(stem);
  }

  /** The Silver name of the end-to-end example input `data/customers.csv`. */
  lemma CustomersSilverName(input: string)
    requires input == "customers.csv"
    ensures SilverName(input) == "customers.parquet"
  {
    var stem := "customers";
    assert '.' !in stem;
    assert input == stem + CsvExt;
    DotlessStem(stem);
  }

  /** The Gold name of that example's Silver file `data/customers.parquet`. */
  lemma CustomersGoldName(silver: string)
    requires silver == "customers.parquet"
    ensures GoldName(silver) == "customers_gold.parquet"
  {
    var stem := "customers";
    assert '.' !in stem;
    assert silver == stem + ParquetExt;
    DotlessStem(stem);
  }
}
