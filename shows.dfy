/** Show.java: a show of the reference catalog. */
module Shows {
  import opened Wrappers

  /** java.util.UUID: two 64-bit halves; the model only compares them. */
  datatype Uuid = Uuid(mostSigBits: int, leastSigBits: int)

  /**
   * An immutable show record; every field may be null. `kind` is the field
   * the source calls `type` (a reserved word here). The getters of the source
   * are the destructors: they return the constructor arguments unchanged.
   */
  datatype Show = Show(
    id: Option<Uuid>,
    producers: Option<seq<string>>,
    productionYear: Option<int>,
    kind: Option<string>,
    originalTitle: Option<string>)

  /** Show.equals: two shows are the same show when their ids are equal. */
  predicate ShowEquals(a: Show, b: Show) {
    a.id == b.id
  }

  /** What Show.hashCode hands to Objects.hash. */
  function HashFields(s: Show): Option<Uuid> {
    s.id
  }

  /** Equality looks at the id only: producers, year, type and title do not matter. */
  lemma EqualsIgnoresAllButId(s: Show, producers: Option<seq<string>>, productionYear: Option<int>,
                              kind: Option<string>, originalTitle: Option<string>)
    ensures ShowEquals(s, Show(s.id, producers, productionYear, kind, originalTitle))
    ensures forall t: Show :: ShowEquals(s, t) <==> s.id == t.id
  {
  }

  /** Show.equals is an equivalence relation. */
  lemma EqualsIsEquivalence(a: Show, b: Show, c: Show)
    ensures ShowEquals(a, a)
    ensures ShowEquals(a, b) ==> ShowEquals(b, a)
    ensures ShowEquals(a, b) && ShowEquals(b, c) ==> ShowEquals(a, c)
  {
  }

  /** hashCode agrees with equals, whatever function combines the hashed fields. */
  lemma HashConsistentWithEquals(a: Show, b: Show, hash: Option<Uuid> -> int)
    ensures ShowEquals(a, b) <==> HashFields(a) == HashFields(b)
    ensures ShowEquals(a, b) ==> hash(HashFields(a)) == hash(HashFields(b))
  {
  }

  /** Show.Builder: a mutable record whose fields start out null. */
  class ShowBuilder {
    var id: Option<Uuid>
    var producers: Option<seq<string>>
    var productionYear: Option<int>
    var kind: Option<string>
    var originalTitle: Option<string>

    constructor ()
      ensures id == None && producers == None && productionYear == None
      ensures kind == None && originalTitle == None
    {
      id, producers, productionYear, kind, originalTitle := None, None, None, None, None;
    }

    method SetId(id: Option<Uuid>) returns (self: ShowBuilder)
      modifies this
      ensures self == this && this.id == id
      ensures producers == old(producers) && productionYear == old(productionYear)
      ensures kind == old(kind) && originalTitle == old(originalTitle)
    {
      this.id := id;
      self := this;
    }

    method SetProducers(producers: Option<seq<string>>) returns (self: ShowBuilder)
      modifies this
      ensures self == this && this.producers == producers
      ensures id == old(id) && productionYear == old(productionYear)
      ensures kind == old(kind) && originalTitle == old(originalTitle)
    {
      this.producers := producers;
      self := this;
    }

    method SetProductionYear(productionYear: Option<int>) returns (self: ShowBuilder)
      modifies this
      ensures self == this && this.productionYear == productionYear
      ensures id == old(id) && producers == old(producers)
      ensures kind == old(kind) && originalTitle == old(originalTitle)
    {
      this.productionYear := productionYear;
      self := this;
    }

    method SetKind(kind: Option<string>) returns (self: ShowBuilder)
      modifies this
      ensures self == this && this.kind == kind
      ensures id == old(id) && producers == old(producers)
      ensures productionYear == old(productionYear) && originalTitle == old(originalTitle)
    {
      this.kind := kind;
      self := this;
    }

    method SetOriginalTitle(originalTitle: Option<string>) returns (self: ShowBuilder)
      modifies this
      ensures self == this && this.originalTitle == originalTitle
      ensures id == old(id) && producers == old(producers)
      ensures productionYear == old(productionYear) && kind == old(kind)
    {
      this.originalTitle := originalTitle;
      self := this;
    }

    /** Builder.build: a show with every field the builder holds. */
    method Build() returns (s: Show)
      ensures s.id == id && s.producers == producers && s.productionYear == productionYear
      ensures s.kind == kind && s.originalTitle == originalTitle
    {
      s := Show(id, producers, productionYear, kind, originalTitle);
    }
  }

  /** A show built from an id and a title alone: every other field is null. */
  method BuildIdAndTitle(id: Uuid, title: string) returns (s: Show)
    ensures s.id == Some(id) && s.originalTitle == Some(title)
    ensures s.producers == None && s.productionYear == None && s.kind == None
  {
    var b := new ShowBuilder();
    b := b.SetId(Some(id));
    b := b.SetOriginalTitle(Some(title));
    s := b.Build();
  }
}
