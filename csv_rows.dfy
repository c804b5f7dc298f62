/** CSVRow.java: one externally supplied row to reconcile against the catalog. */
module CSVRows {
  import opened Wrappers

  /** An immutable row; every field may be null. `kind` is the source's `type`. */
  datatype CSVRow = CSVRow(
    originalTitle: Option<string>,
    translatedTitle: Option<string>,
    producers: Option<string>,
    productionYear: Option<int>,
    kind: Option<string>)

  /** CSVRow.equals: all five fields, null equal to null. */
  predicate CSVRowEquals(a: CSVRow, b: CSVRow) {
    && a.originalTitle == b.originalTitle
    && a.translatedTitle == b.translatedTitle
    && a.producers == b.producers
    && a.productionYear == b.productionYear
    && a.kind == b.kind
  }

  function HashFields(r: CSVRow): (Option<string>, Option<string>, Option<string>, Option<int>, Option<string>) {
    (r.originalTitle, r.translatedTitle, r.producers, r.productionYear, r.kind)
  }

  /** Row equality is value equality of the whole record. */
  lemma EqualsIsValueEquality(a: CSVRow, b: CSVRow)
    ensures CSVRowEquals(a, b) <==> a == b
  {
  }

  lemma HashConsistentWithEquals(a: CSVRow, b: CSVRow,
                                 hash: ((Option<string>, Option<string>, Option<string>, Option<int>, Option<string>)) -> int)
    ensures CSVRowEquals(a, b) <==> HashFields(a) == HashFields(b)
    ensures CSVRowEquals(a, b) ==> hash(HashFields(a)) == hash(HashFields(b))
  {
  }

  /** CSVRow.Builder: a mutable record whose fields start out null. */
  class CSVRowBuilder {
    var originalTitle: Option<string>
    var translatedTitle: Option<string>
    var producers: Option<string>
    var productionYear: Option<int>
    var kind: Option<string>

    function Fields(): CSVRow
      reads this
    {
      CSVRow(originalTitle, translatedTitle, producers, productionYear, kind)
    }

    constructor ()
      ensures Fields() == CSVRow(None, None, None, None, None)
    {
      originalTitle, translatedTitle, producers, productionYear, kind := None, None, None, None, None;
    }

    method SetOriginalTitle(originalTitle: Option<string>) returns (self: CSVRowBuilder)
      modifies this
      ensures self == this && Fields() == old(Fields()).(originalTitle := originalTitle)
    {
      this.originalTitle := originalTitle;
      self := this;
    }

    method SetTranslatedTitle(translatedTitle: Option<string>) returns (self: CSVRowBuilder)
      modifies this
      ensures self == this && Fields() == old(Fields()).(translatedTitle := translatedTitle)
    {
      this.translatedTitle := translatedTitle;
      self := this;
    }

    method SetProducers(producers: Option<string>) returns (self: CSVRowBuilder)
      modifies this
      ensures self == this && Fields() == old(Fields()).(producers := producers)
    {
      this.producers := producers;
      self := this;
    }

    method SetProductionYear(productionYear: Option<int>) returns (self: CSVRowBuilder)
      modifies this
      ensures self == this && Fields() == old(Fields()).(productionYear := productionYear)
    {
      this.productionYear := productionYear;
      self := this;
    }

    method SetKind(kind: Option<string>) returns (self: CSVRowBuilder)
      modifies this
      ensures self == this && Fields() == old(Fields()).(kind := kind)
    {
      this.kind := kind;
      self := this;
    }

    /** Builder.build: a row with every field the builder holds. */
    method Build() returns (r: CSVRow)
      ensures r.originalTitle == originalTitle && r.translatedTitle == translatedTitle
      ensures r.producers == producers && r.productionYear == productionYear && r.kind == kind
    {
      r := CSVRow(originalTitle, translatedTitle, producers, productionYear, kind);
    }
  }

  /** A row that names only a title: its other fields stay null. */
  method BuildTitleOnly(title: string) returns (r: CSVRow)
    ensures r.originalTitle == Some(title)
    ensures r.translatedTitle == None && r.producers == None && r.productionYear == None && r.kind == None
  {
    var b := new CSVRowBuilder();
    b := b.SetOriginalTitle(Some(title));
    r := b.Build();
  }
}
