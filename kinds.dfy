/** The closed set of CMS tables, and the three lookup tables that drive the
    generic create/update/delete routes: which tables exist, which carry a
    translated `_content` companion, and which foreign key scopes a table's
    sibling `ordering`. */
module Kinds {
  import opened Wrappers

  /** The foreign keys that scope an ordering. */
  datatype ParentKey = StoryId | ProfileId | SectionId | StorysectionId
  {
    function Column(): string
    {
      match this
      case StoryId => "story_id"
      case ProfileId => "profile_id"
      case SectionId => "section_id"
      case StorysectionId => "storysection_id"
    }
  }

  /** One constructor per entry of the table list. */
  datatype Kind =
    | Author | Formatter | Generator | Materializer | Profile | ProfileMeta
    | Selector | Story | StoryDescription | StoryFootnote | Storysection
    | StorysectionDescription | StorysectionStat | StorysectionSubtitle | StorysectionVisualization
    | Section | SectionDescription | SectionStat | SectionSubtitle | SectionVisualization | SectionSelector
  {
    /** The table name the routes are generated from. */
    function Name(): string
    {
      match this
      case Author => "author"
      case Formatter => "formatter"
      case Generator => "generator"
      case Materializer => "materializer"
      case Profile => "profile"
      case ProfileMeta => "profile_meta"
      case Selector => "selector"
      case Story => "story"
      case StoryDescription => "story_description"
      case StoryFootnote => "story_footnote"
      case Storysection => "storysection"
      case StorysectionDescription => "storysection_description"
      case StorysectionStat => "storysection_stat"
      case StorysectionSubtitle => "storysection_subtitle"
      case StorysectionVisualization => "storysection_visualization"
      case Section => "section"
      case SectionDescription => "section_description"
      case SectionStat => "section_stat"
      case SectionSubtitle => "section_subtitle"
      case SectionVisualization => "section_visualization"
      case SectionSelector => "section_selector"
    }

    /** Whether the table has a per-locale `<name>_content` companion. */
    predicate Translatable()
    {
      this in {Author, Profile, Story, StoryDescription, StoryFootnote, Storysection,
               StorysectionDescription, StorysectionStat, StorysectionSubtitle,
               Section, SectionDescription, SectionStat, SectionSubtitle}
    }

    /** The foreign key that scopes this table's `ordering`, if any. */
    function OrderingParent(): Option<ParentKey>
    {
      match this
      case Author | StoryDescription | StoryFootnote | Storysection => Some(StoryId)
      case Materializer | ProfileMeta | Section => Some(ProfileId)
      case SectionDescription | SectionSelector | SectionStat | SectionSubtitle | SectionVisualization => Some(SectionId)
      case StorysectionDescription | StorysectionStat | StorysectionSubtitle | StorysectionVisualization => Some(StorysectionId)
      case Formatter | Generator | Selector | Profile | Story => None
    }
  }

  /** `cmsTables`, in the order the source lists them. */
  const CmsTables: seq<string> := [
    "author", "formatter", "generator", "materializer", "profile", "profile_meta",
    "selector", "story", "story_description", "story_footnote", "storysection",
    "storysection_description", "storysection_stat", "storysection_subtitle", "storysection_visualization",
    "section", "section_description", "section_stat", "section_subtitle", "section_visualization", "section_selector"
  ]

  /** `contentTables`: the translated tables. */
  const ContentTables: seq<string> := [
    "author", "profile", "story", "story_description", "story_footnote", "storysection", "storysection_description",
    "storysection_stat", "storysection_subtitle", "section", "section_description", "section_stat", "section_subtitle"
  ]

  /** `parentOrderingTables`: table name to the column that scopes its ordering. */
  const ParentOrderingTables: map<string, string> := map[
    "author" := "story_id",
    "materializer" := "profile_id",
    "profile_meta" := "profile_id",
    "section" := "profile_id",
    "section_description" := "section_id",
    "section_selector" := "section_id",
    "section_stat" := "section_id",
    "section_subtitle" := "section_id",
    "section_visualization" := "section_id",
    "story_description" := "story_id",
    "story_footnote" := "story_id",
    "storysection" := "story_id",
    "storysection_description" := "storysection_id",
    "storysection_stat" := "storysection_id",
    "storysection_subtitle" := "storysection_id",
    "storysection_visualization" := "storysection_id"
  ]

  /** The kind a route name refers to, if it is a CMS table. */
  function KindNamed(name: string): (r: Option<Kind>)
    ensures r.Some? ==> r.value.Name() == name
    ensures r.None? ==> name !in CmsTables
  {
    if name == "author" then Some(Author)
    else if name == "formatter" then Some(Formatter)
    else if name == "generator" then Some(Generator)
    else if name == "materializer" then Some(Materializer)
    else if name == "profile" then Some(Profile)
    else if name == "profile_meta" then Some(ProfileMeta)
    else if name == "selector" then Some(Selector)
    else if name == "story" then Some(Story)
    else if name == "story_description" then Some(StoryDescription)
    else if name == "story_footnote" then Some(StoryFootnote)
    else if name == "storysection" then Some(Storysection)
    else if name == "storysection_description" then Some(StorysectionDescription)
    else if name == "storysection_stat" then Some(StorysectionStat)
    else if name == "storysection_subtitle" then Some(StorysectionSubtitle)
    else if name == "storysection_visualization" then Some(StorysectionVisualization)
    else if name == "section" then Some(Section)
    else if name == "section_description" then Some(SectionDescription)
    else if name == "section_stat" then Some(SectionStat)
    else if name == "section_subtitle" then Some(SectionSubtitle)
    else if name == "section_visualization" then Some(SectionVisualization)
    else if name == "section_selector" then Some(SectionSelector)
    else None
  }

  // One lemma per group of kinds and per lookup table keeps each proof small.

  /** The kinds ordered under the story. */
  lemma StoryKindsListed(k: Kind)
    requires k.OrderingParent() == Some(StoryId)
    ensures k.Name() in CmsTables
  {
    match k
    case Author =>
    case StoryDescription =>
    case StoryFootnote =>
    case Storysection =>
  }

  lemma StoryKindsContent(k: Kind)
    requires k.OrderingParent() == Some(StoryId)
    ensures k.Translatable() <==> k.Name() in ContentTables
  {
    match k
    case Author =>
    case StoryDescription =>
    case StoryFootnote =>
    case Storysection =>
  }

  lemma StoryKindsParent(k: Kind)
    requires k.OrderingParent() == Some(StoryId)
    ensures k.Name() in ParentOrderingTables && ParentOrderingTables[k.Name()] == k.OrderingParent().value.Column()
  {
    match k
    case Author =>
    case StoryDescription =>
    case StoryFootnote =>
    case Storysection =>
  }

  /** The kinds ordered under the profile. */
  lemma ProfileKindsListed(k: Kind)
    requires k.OrderingParent() == Some(ProfileId)
    ensures k.Name() in CmsTables
  {
    match k
    case Materializer =>
    case ProfileMeta =>
    case Section =>
  }

  lemma ProfileKindsContent(k: Kind)
    requires k.OrderingParent() == Some(ProfileId)
    ensures k.Translatable() <==> k.Name() in ContentTables
  {
    match k
    case Materializer =>
    case ProfileMeta =>
    case Section =>
  }

  lemma ProfileKindsParent(k: Kind)
    requires k.OrderingParent() == Some(ProfileId)
    ensures k.Name() in ParentOrderingTables && ParentOrderingTables[k.Name()] == k.OrderingParent().value.Column()
  {
    match k
    case Materializer =>
    case ProfileMeta =>
    case Section =>
  }

  /** The kinds ordered under the section. */
  lemma SectionKindsListed(k: Kind)
    requires k.OrderingParent() == Some(SectionId)
    ensures k.Name() in CmsTables
  {
    match k
    case SectionDescription =>
    case SectionSelector =>
    case SectionStat =>
    case SectionSubtitle =>
    case SectionVisualization =>
  }

  lemma SectionKindsContent(k: Kind)
    requires k.OrderingParent() == Some(SectionId)
    ensures k.Translatable() <==> k.Name() in ContentTables
  {
    match k
    case SectionDescription =>
    case SectionSelector =>
    case SectionStat =>
    case SectionSubtitle =>
    case SectionVisualization =>
  }

  lemma SectionKindsParent(k: Kind)
    requires k.OrderingParent() == Some(SectionId)
    ensures k.Name() in ParentOrderingTables && ParentOrderingTables[k.Name()] == k.OrderingParent().value.Column()
  {
    match k
    case SectionDescription =>
    case SectionSelector =>
    case SectionStat =>
    case SectionSubtitle =>
    case SectionVisualization =>
  }

  /** The kinds ordered under the story section. */
  lemma StorysectionKindsListed(k: Kind)
    requires k.OrderingParent() == Some(StorysectionId)
    ensures k.Name() in CmsTables
  {
    match k
    case StorysectionDescription =>
    case StorysectionStat =>
    case StorysectionSubtitle =>
    case StorysectionVisualization =>
  }

  lemma StorysectionKindsContent(k: Kind)
    requires k.OrderingParent() == Some(StorysectionId)
    ensures k.Translatable() <==> k.Name() in ContentTables
  {
    match k
    case StorysectionDescription =>
    case StorysectionStat =>
    case StorysectionSubtitle =>
    case StorysectionVisualization =>
  }

  lemma StorysectionKindsParent(k: Kind)
    requires k.OrderingParent() == Some(StorysectionId)
    ensures k.Name() in ParentOrderingTables && ParentOrderingTables[k.Name()] == k.OrderingParent().value.Column()
  {
    match k
    case StorysectionDescription =>
    case StorysectionStat =>
    case StorysectionSubtitle =>
    case StorysectionVisualization =>
  }

  /** The kinds without an ordering parent. */
  lemma UnorderedKindsListed(k: Kind)
    requires k.OrderingParent().None?
    ensures k.Name() in CmsTables
  {
    match k
    case Formatter =>
    case Generator =>
    case Selector =>
    case Profile =>
    case Story =>
  }

  lemma UnorderedKindsContent(k: Kind)
    requires k.OrderingParent().None?
    ensures k.Translatable() <==> k.Name() in ContentTables
  {
    match k
    case Formatter =>
    case Generator =>
    case Selector =>
    case Profile =>
    case Story =>
  }

  lemma UnorderedKindsParent(k: Kind)
    requires k.OrderingParent().None?
    ensures k.Name() !in ParentOrderingTables
  {
    match k
    case Formatter =>
    case Generator =>
    case Selector =>
    case Profile =>
    case Story =>
  }

  /** What the three lookup tables say about one kind. */
  lemma KindFacts(k: Kind)
    ensures k.Name() in CmsTables
    ensures k.Translatable() <==> k.Name() in ContentTables
    ensures k.OrderingParent().Some? <==> k.Name() in ParentOrderingTables
    ensures k.OrderingParent().Some? ==> ParentOrderingTables[k.Name()] == k.OrderingParent().value.Column()
  {
    match k.OrderingParent()
    case None =>
      UnorderedKindsListed(k);
      UnorderedKindsContent(k);
      UnorderedKindsParent(k);
    case Some(StoryId) =>
      StoryKindsListed(k);
      StoryKindsContent(k);
      StoryKindsParent(k);
    case Some(ProfileId) =>
      ProfileKindsListed(k);
      ProfileKindsContent(k);
      ProfileKindsParent(k);
    case Some(SectionId) =>
      SectionKindsListed(k);
      SectionKindsContent(k);
      SectionKindsParent(k);
    case Some(StorysectionId) =>
      StorysectionKindsListed(k);
      StorysectionKindsContent(k);
      StorysectionKindsParent(k);
  }

  /** Every kind names a table of the list, and every table of the list is
      the name of a kind. */
  lemma KindsAreCmsTables()
    ensures forall k: Kind :: k.Name() in CmsTables
    ensures forall n :: n in CmsTables ==> KindNamed(n).Some? && KindNamed(n).value.Name() == n
  {
    forall k: Kind ensures k.Name() in CmsTables {
      KindFacts(k);
    }
  }

  /** Every translated table is a CMS table, and the datatype's translatability
      agrees with the list. */
  lemma ContentTablesAreCmsTables()
    ensures forall n :: n in ContentTables ==> n in CmsTables
    ensures forall k: Kind :: k.Translatable() <==> k.Name() in ContentTables
  {
    forall k: Kind ensures k.Translatable() <==> k.Name() in ContentTables {
      KindFacts(k);
    }
  }

  /** The keys of the parent-ordering table, written out. */
  const OrderedTableNames: set<string> := {
    "author", "materializer", "profile_meta", "section", "section_description",
    "section_selector", "section_stat", "section_subtitle", "section_visualization",
    "story_description", "story_footnote", "storysection", "storysection_description",
    "storysection_stat", "storysection_subtitle", "storysection_visualization"}

  lemma ParentOrderingKeys()
    ensures ParentOrderingTables.Keys == OrderedTableNames
  {
  }

  /** Every key of the parent-ordering table is a CMS table. */
  lemma ParentOrderingTablesAreCmsTables()
    ensures forall n :: n in ParentOrderingTables ==> n in CmsTables
  {
    ParentOrderingKeys();
  }

  /** Every value of the parent-ordering table is one of the four parent columns. */
  lemma ParentColumnsAreParentKeys()
    ensures forall n :: n in ParentOrderingTables ==>
      ParentOrderingTables[n] in {"story_id", "profile_id", "section_id", "storysection_id"}
  {
  }

  /** The datatype's ordering parent agrees with the parent-ordering table. */
  lemma OrderingParentMatchesTable()
    ensures forall k: Kind :: k.OrderingParent().Some? <==> k.Name() in ParentOrderingTables
    ensures forall k: Kind :: k.OrderingParent().Some? ==>
      ParentOrderingTables[k.Name()] == k.OrderingParent().value.Column()
  {
    forall k: Kind
      ensures k.OrderingParent().Some? <==> k.Name() in ParentOrderingTables
      ensures k.OrderingParent().Some? ==> ParentOrderingTables[k.Name()] == k.OrderingParent().value.Column()
    {
      KindFacts(k);
    }
  }

  /** The join table is ordered under its section but has no content table; the
      top-level and shared tables have no ordering parent. */
  lemma OrderingExceptions()
    ensures SectionSelector.OrderingParent() == Some(SectionId) && !SectionSelector.Translatable()
    ensures forall k: Kind :: k in {Formatter, Generator, Selector, Profile, Story} <==> k.OrderingParent().None?
  {
  }
}
