/** ShowTitle.java: one title of a show in one language, possibly of one episode. */
module ShowTitles {
  import opened Wrappers
  import opened Shows

  /** An immutable title record; every field may be null. */
  datatype ShowTitle = ShowTitle(
    showId: Option<Uuid>,
    language: Option<string>,
    title: Option<string>,
    episodeNumber: Option<int>,
    episodeName: Option<string>,
    seasonNumber: Option<int>)

  /** ShowTitle.equals: every field except the episode name. */
  predicate ShowTitleEquals(a: ShowTitle, b: ShowTitle) {
    && a.showId == b.showId
    && a.language == b.language
    && a.title == b.title
    && a.episodeNumber == b.episodeNumber
    && a.seasonNumber == b.seasonNumber
  }

  /** What ShowTitle.hashCode hands to Objects.hash. */
  function HashFields(t: ShowTitle): (Option<Uuid>, Option<string>, Option<string>, Option<int>, Option<int>) {
    (t.showId, t.language, t.title, t.episodeNumber, t.seasonNumber)
  }

  /** Two titles that differ only in the episode name are equal. */
  lemma EqualsIgnoresEpisodeName(t: ShowTitle, episodeName: Option<string>)
    ensures ShowTitleEquals(t, t.(episodeName := episodeName))
  {
  }

  /** Any other difference makes them unequal. */
  lemma EqualsSeesOtherFields(a: ShowTitle, b: ShowTitle)
    requires a.episodeName == b.episodeName
    ensures ShowTitleEquals(a, b) <==> a == b
  {
  }

  lemma EqualsIsEquivalence(a: ShowTitle, b: ShowTitle, c: ShowTitle)
    ensures ShowTitleEquals(a, a)
    ensures ShowTitleEquals(a, b) ==> ShowTitleEquals(b, a)
    ensures ShowTitleEquals(a, b) && ShowTitleEquals(b, c) ==> ShowTitleEquals(a, c)
  {
  }

  /** hashCode covers exactly the fields equals compares. */
  lemma HashConsistentWithEquals(a: ShowTitle, b: ShowTitle,
                                 hash: ((Option<Uuid>, Option<string>, Option<string>, Option<int>, Option<int>)) -> int)
    ensures ShowTitleEquals(a, b) <==> HashFields(a) == HashFields(b)
    ensures ShowTitleEquals(a, b) ==> hash(HashFields(a)) == hash(HashFields(b))
  {
  }

  /** ShowTitle.Builder: a mutable record whose fields start out null. */
  class ShowTitleBuilder {
    var showId: Option<Uuid>
    var language: Option<string>
    var title: Option<string>
    var episodeNumber: Option<int>
    var episodeName: Option<string>
    var seasonNumber: Option<int>

    /** The abstract value: what Build would return now. */
    function Fields(): ShowTitle
      reads this
    {
      ShowTitle(showId, language, title, episodeNumber, episodeName, seasonNumber)
    }

    constructor ()
      ensures Fields() == ShowTitle(None, None, None, None, None, None)
    {
      showId, language, title := None, None, None;
      episodeNumber, episodeName, seasonNumber := None, None, None;
    }

    method SetShowId(showId: Option<Uuid>) returns (self: ShowTitleBuilder)
      modifies this
      ensures self == this && Fields() == old(Fields()).(showId := showId)
    {
      this.showId := showId;
      self := this;
    }

    method SetLanguage(language: Option<string>) returns (self: ShowTitleBuilder)
      modifies this
      ensures self == this && Fields() == old(Fields()).(language := language)
    {
      this.language := language;
      self := this;
    }

    method SetTitle(title: Option<string>) returns (self: ShowTitleBuilder)
      modifies this
      ensures self == this && Fields() == old(Fields()).(title := title)
    {
      this.title := title;
      self := this;
    }

    method SetEpisodeNumber(episodeNumber: Option<int>) returns (self: ShowTitleBuilder)
      modifies this
      ensures self == this && Fields() == old(Fields()).(episodeNumber := episodeNumber)
    {
      this.episodeNumber := episodeNumber;
      self := this;
    }

    method SetEpisodeName(episodeName: Option<string>) returns (self: ShowTitleBuilder)
      modifies this
      ensures self == this && Fields() == old(Fields()).(episodeName := episodeName)
    {
      this.episodeName := episodeName;
      self := this;
    }

    method SetSeasonNumber(seasonNumber: Option<int>) returns (self: ShowTitleBuilder)
      modifies this
      ensures self == this && Fields() == old(Fields()).(seasonNumber := seasonNumber)
    {
      this.seasonNumber := seasonNumber;
      self := this;
    }

    /** Builder.build: a title with every field the builder holds. */
    method Build() returns (t: ShowTitle)
      ensures t.showId == showId && t.language == language && t.title == title
      ensures t.episodeNumber == episodeNumber && t.episodeName == episodeName
      ensures t.seasonNumber == seasonNumber
    {
      t := ShowTitle(showId, language, title, episodeNumber, episodeName, seasonNumber);
    }
  }

  /** A title of a whole show (no episode): the episode fields stay null. */
  method BuildShowLevelTitle(showId: Uuid, language: string, title: string) returns (t: ShowTitle)
    ensures t.showId == Some(showId) && t.language == Some(language) && t.title == Some(title)
    ensures t.episodeNumber == None && t.episodeName == None && t.seasonNumber == None
  {
    var b := new ShowTitleBuilder();
    b := b.SetShowId(Some(showId));
    b := b.SetLanguage(Some(language));
    b := b.SetTitle(Some(title));
    t := b.Build();
  }
}
