/**
 * The accent palette of src/layout/hooks/useDataThemeChange.ts: eight entries,
 * each pairing a theme id with its accent colour, and the `Array.find` lookup
 * that picks the entry for a theme id.
 */
module Palette {
  import opened Wrappers

  datatype ThemeColorEntry = ThemeColorEntry(color: string, themeColor: string)

  /** The palette, in the order the source declares it. */
  const ThemeColors: seq<ThemeColorEntry> := [
    ThemeColorEntry("#ffffff", "light"),        // bright white
    ThemeColorEntry("#1b2a47", "default"),      // dodge blue
    ThemeColorEntry("#722ed1", "saucePurple"),  // deep violet
    ThemeColorEntry("#eb2f96", "pink"),         // dark pink
    ThemeColorEntry("#f5222d", "dusk"),         // scarlet
    ThemeColorEntry("#fa541c", "volcano"),      // orange red
    ThemeColorEntry("#13c2c2", "mingQing"),     // emerald
    ThemeColorEntry("#52c41a", "auroraGreen")   // lime green
  ]

  /** The ids the palette knows. */
  const ThemeIds: set<string> := set e | e in ThemeColors :: e.themeColor

  /** `entries[k]` is the first entry whose id is `id`. */
  predicate FirstMatchAt(entries: seq<ThemeColorEntry>, id: string, k: int)
  {
    && 0 <= k < |entries|
    && entries[k].themeColor == id
    && forall j :: 0 <= j < k ==> entries[j].themeColor != id
  }

  /** `entries.find(v => v.themeColor === id)`; `None` stands for `undefined`. */
  function Find(entries: seq<ThemeColorEntry>, id: string): (r: Option<ThemeColorEntry>)
    ensures r.None? <==> forall j :: 0 <= j < |entries| ==> entries[j].themeColor != id
    ensures r.Some? ==> exists k :: FirstMatchAt(entries, id, k) && r.value == entries[k]
  {
    if |entries| == 0 then None
    else if entries[0].themeColor == id then
      assert FirstMatchAt(entries, id, 0);
      Some(entries[0])
    else
      var r := Find(entries[1..], id);
      assert r.Some? ==> exists k :: FirstMatchAt(entries, id, k) && r.value == entries[k] by {
        if r.Some? {
          var k :| FirstMatchAt(entries[1..], id, k) && r.value == entries[1..][k];
          assert FirstMatchAt(entries, id, k + 1);
        }
      }
      r
  }

  /** The palette has eight entries, no two share an id, and its ids are the eight theme names. */
  lemma PaletteWellFormed()
    ensures |ThemeColors| == 8
    ensures forall i, j :: 0 <= i < j < |ThemeColors| ==> ThemeColors[i].themeColor != ThemeColors[j].themeColor
    ensures ThemeIds == {"light", "default", "saucePurple", "pink", "dusk", "volcano", "mingQing", "auroraGreen"}
  {
    PaletteIdSet();
  }

  lemma PaletteIdSet()
    ensures ThemeIds == {"light", "default", "saucePurple", "pink", "dusk", "volcano", "mingQing", "auroraGreen"}
  {
    var ids := {"light", "default", "saucePurple", "pink", "dusk", "volcano", "mingQing", "auroraGreen"};
    forall e | e in ThemeColors
      ensures e.themeColor in ids
    {
    }
    forall k | 0 <= k < |ThemeColors|
      ensures ThemeColors[k].themeColor in ThemeIds
    {
      assert ThemeColors[k] in ThemeColors;
    }
    assert ids <= ThemeIds by {
      assert ThemeColors[0].themeColor == "light" && ThemeColors[1].themeColor == "default";
      assert ThemeColors[2].themeColor == "saucePurple" && ThemeColors[3].themeColor == "pink";
      assert ThemeColors[4].themeColor == "dusk" && ThemeColors[5].themeColor == "volcano";
      assert ThemeColors[6].themeColor == "mingQing" && ThemeColors[7].themeColor == "auroraGreen";
    }
  }

  /** The accent colour `find` yields for `id`; `None` where the source reads `.color` of `undefined`. */
  function PaletteColor(id: string): (r: Option<string>)
    ensures r.Some? <==> id in ThemeIds
    ensures r.Some? ==> ThemeColorEntry(r.value, id) in ThemeColors
  {
    match Find(ThemeColors, id)
    case None => None
    case Some(e) => Some(e.color)
  }

  /** Because ids are distinct, the lookup returns the colour of the one entry carrying the id. */
  lemma {:induction false} PaletteColorOfEntry(e: ThemeColorEntry)
    requires e in ThemeColors
    ensures PaletteColor(e.themeColor) == Some(e.color)
  {
    PaletteWellFormed();
    var f := Find(ThemeColors, e.themeColor);
    var i :| 0 <= i < |ThemeColors| && ThemeColors[i] == e;
    var k :| FirstMatchAt(ThemeColors, e.themeColor, k) && f.value == ThemeColors[k];
    assert k == i;
  }
}
