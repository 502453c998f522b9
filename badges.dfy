/** The badge colour of a tag: a case-insensitive lookup in five fixed tag lists,
    each with its colour classes, and a fallback class for every other tag. */
module Badges {
  import opened JsString
  import opened Config
  import opened TagColors

  const Green := "bg-green-200 text-green-700"
  const Blue := "bg-blue-200 text-blue-700"
  const Amber := "bg-amber-200 text-amber-700"
  const Purple := "bg-purple-200 text-purple-700"
  const Rose := "bg-rose-200 text-rose-700"
  const Fallback := "text-xs"

  /** The six results a badge colour can take. */
  const BadgeClasses: seq<string> := [Green, Blue, Amber, Purple, Rose, Fallback]

  const LanguageTags: seq<string> := ["python", "typescript", "javascript", "java", "go"]
  const FrameworkTags: seq<string> := ["react", "next.js", "tailwind css"]
  const DevOpsTags: seq<string> := ["docker", "git", "kubernetes"]
  const DatabaseTags: seq<string> := ["mongodb", "sql", "postgresql"]
  /** The hardware list as the badge function spells it. */
  const HardwareTags: seq<string> :=
    ["3d modeling", "3d printing", "cad", "arduino", "electrical systmes", "embedded systems"]

  /** The decision of `getBadgeColor` on the lower-cased tag `t`: the first list
      holding `t` decides. The hardware list is a parameter, so that the function as
      written and the corrected one share this definition. */
  function KeyColor(t: string, hardware: seq<string>): (classes: string)
    ensures classes in BadgeClasses
  {
    if t in LanguageTags then Green
    else if t in FrameworkTags then Blue
    else if t in DevOpsTags then Amber
    else if t in DatabaseTags then Purple
    else if t in hardware then Rose
    else Fallback
  }

  /** `getBadgeColor`: the lower-cased tag, looked up in the five lists. */
  function GetBadgeColor(tag: string): (classes: string)
    ensures classes in BadgeClasses
  {
    KeyColor(ToLower(tag), HardwareTags)
  }

  /** Only the lower-cased tag matters. */
  lemma BadgeColorIgnoresCase(tag: string)
    ensures GetBadgeColor(tag) == GetBadgeColor(ToLower(tag))
  {
    ToLowerIdempotent(tag);
  }

  lemma BadgeColorCaseInsensitive(a: string, b: string)
    requires ToLower(a) == ToLower(b)
    ensures GetBadgeColor(a) == GetBadgeColor(b)
  {
  }

  /** No tag is in two of the five lists. */
  lemma ListsDisjoint(t: string)
    ensures t in FrameworkTags ==> t !in LanguageTags
    ensures t in DevOpsTags ==> t !in LanguageTags && t !in FrameworkTags
    ensures t in DatabaseTags ==> t !in LanguageTags && t !in FrameworkTags && t !in DevOpsTags
    ensures t in HardwareTags ==>
      t !in LanguageTags && t !in FrameworkTags && t !in DevOpsTags && t !in DatabaseTags
  {
  }

  /** Each colour is given exactly to the tags of its list, and the fallback
      exactly to the tags of none. */
  lemma BadgeColorOfList(tag: string)
    ensures GetBadgeColor(tag) == Green <==> ToLower(tag) in LanguageTags
    ensures GetBadgeColor(tag) == Blue <==> ToLower(tag) in FrameworkTags
    ensures GetBadgeColor(tag) == Amber <==> ToLower(tag) in DevOpsTags
    ensures GetBadgeColor(tag) == Purple <==> ToLower(tag) in DatabaseTags
    ensures GetBadgeColor(tag) == Rose <==> ToLower(tag) in HardwareTags
    ensures GetBadgeColor(tag) == Fallback <==>
      ToLower(tag) !in LanguageTags + FrameworkTags + DevOpsTags + DatabaseTags + HardwareTags
  {
    ListsDisjoint(ToLower(tag));
  }

  // ---------------------------------------------------------------------------
  // The misspelt hardware tag.
  // ---------------------------------------------------------------------------

  /** The configuration lists "electrical systems" under hardware, with the rose
      classes, but the badge function gives that tag the fallback class. */
  lemma ElectricalSystemsMisspelt()
    ensures "electrical systems" in TagCategories[4].tags && TagCategories[4].classes == Rose
    ensures GetBadgeColor("electrical systems") == Fallback
    ensures GetBadgeColor("electrical systmes") == Rose
  {
    ConfigListsElectricalSystems();
    ElectricalSystemsFallback();
    ElectricalSystmesRose();
  }

  /** The gallery's table, built from the same configuration, gives the tag the rose
      classes that `getBadgeColor` withholds. */
  lemma GalleryColoursElectricalSystems()
    ensures "electrical systems" in ColorTable(TagCategories)
    ensures ColorTable(TagCategories)["electrical systems"] == Rose
    ensures GetBadgeColor("electrical systems") != ColorTable(TagCategories)["electrical systems"]
  {
    ConfigListsElectricalSystems();
    LowerElectricalSystems();
    CorrectedListsAreConfig();
    assert LowerAll(TagCategories[4].tags)[4] == ToLower(TagCategories[4].tags[4]);
    ColorTableLastWins(TagCategories, 4, "electrical systems");
    ElectricalSystemsFallback();
  }

  lemma ConfigListsElectricalSystems()
    ensures "electrical systems" in TagCategories[4].tags && TagCategories[4].classes == Rose
  {
    assert TagCategories[4].tags[4] == "electrical systems";
  }

  lemma ElectricalSystemsFallback()
    ensures GetBadgeColor("electrical systems") == Fallback
  {
    LowerElectricalSystems();
    ElectricalSystemsUnlisted();
    UnlistedFallback("electrical systems");
  }

  lemma ElectricalSystmesRose()
    ensures GetBadgeColor("electrical systmes") == Rose
  {
    LowerElectricalSystmes();
    HardwareRose("electrical systmes");
  }

  lemma ElectricalSystemsUnlisted()
    ensures "electrical systems" !in LanguageTags && "electrical systems" !in FrameworkTags
    ensures "electrical systems" !in DevOpsTags && "electrical systems" !in DatabaseTags
    ensures "electrical systems" !in HardwareTags
  {
  }

  lemma UnlistedFallback(tag: string)
    requires ToLower(tag) == tag
    requires tag !in LanguageTags && tag !in FrameworkTags && tag !in DevOpsTags
    requires tag !in DatabaseTags && tag !in HardwareTags
    ensures GetBadgeColor(tag) == Fallback
  {
  }

  lemma HardwareRose(tag: string)
    requires ToLower(tag) == tag && tag in HardwareTags
    ensures GetBadgeColor(tag) == Rose
  {
    ListsDisjoint(tag);
  }

  lemma LowerElectricalSystems()
    ensures ToLower("electrical systems") == "electrical systems"
  {
    LowerUnchanged("electrical systems");
  }

  lemma LowerElectricalSystmes()
    ensures ToLower("electrical systmes") == "electrical systmes"
  {
    LowerUnchanged("electrical systmes");
  }

  /** The hardware list spelt as the configuration spells it. */
  const CorrectedHardwareTags: seq<string> :=
    ["3d modeling", "3d printing", "cad", "arduino", "electrical systems", "embedded systems"]

  /** `getBadgeColor` with the hardware list spelt as in the configuration. */
  function CorrectedBadgeColor(tag: string): (classes: string)
    ensures classes in BadgeClasses
  {
    KeyColor(ToLower(tag), CorrectedHardwareTags)
  }

  /** The five lists of the corrected function are those of the configuration. */
  lemma CorrectedListsAreConfig()
    ensures |TagCategories| == 5
    ensures TagCategories[0].tags == LanguageTags && TagCategories[0].classes == Green
    ensures TagCategories[1].tags == FrameworkTags && TagCategories[1].classes == Blue
    ensures TagCategories[2].tags == DevOpsTags && TagCategories[2].classes == Amber
    ensures TagCategories[3].tags == DatabaseTags && TagCategories[3].classes == Purple
    ensures TagCategories[4].tags == CorrectedHardwareTags && TagCategories[4].classes == Rose
  {
  }

  /** Every tag the configuration lists, in any letter case, gets the classes of
      its category from the corrected function. */
  lemma CorrectedBadgeColorFollowsConfig(c: nat, tag: string)
    requires c < |TagCategories| && ToLower(tag) in TagCategories[c].tags
    ensures CorrectedBadgeColor(tag) == TagCategories[c].classes
  {
    CorrectedListsAreConfig();
    CorrectedListsDisjoint(ToLower(tag));
  }

  lemma CorrectedListsDisjoint(t: string)
    ensures t in FrameworkTags ==> t !in LanguageTags
    ensures t in DevOpsTags ==> t !in LanguageTags && t !in FrameworkTags
    ensures t in DatabaseTags ==> t !in LanguageTags && t !in FrameworkTags && t !in DevOpsTags
    ensures t in CorrectedHardwareTags ==>
      t !in LanguageTags && t !in FrameworkTags && t !in DevOpsTags && t !in DatabaseTags
  {
  }

  /** The two functions differ only on the two spellings of the one tag. */
  lemma CorrectionChangesOneTag(tag: string)
    requires ToLower(tag) != "electrical systems" && ToLower(tag) != "electrical systmes"
    ensures CorrectedBadgeColor(tag) == GetBadgeColor(tag)
  {
    HardwareSpellingsAgree(ToLower(tag));
    KeyColorHardwareMembership(ToLower(tag), HardwareTags, CorrectedHardwareTags);
  }

  /** Only whether the key is on the hardware list matters, not the rest of the list. */
  lemma KeyColorHardwareMembership(t: string, h1: seq<string>, h2: seq<string>)
    requires t in h1 <==> t in h2
    ensures KeyColor(t, h1) == KeyColor(t, h2)
  {
  }

  lemma HardwareSpellingsAgree(t: string)
    requires t != "electrical systems" && t != "electrical systmes"
    ensures t in HardwareTags <==> t in CorrectedHardwareTags
  {
  }
}
