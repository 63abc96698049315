/** The DMC thread palette: 27 named colours in declaration order, the
    chart symbol of each, and the palette array the converters scan. */
module DmcColors {
  import opened Hex

  /** `dmcColors` as its `Object.entries`: name and hex string, in
      declaration order. */
  const Colors: seq<(string, string)> :=
    [("White", "#FFFFFF"), ("Ecru", "#F0E68C"), ("Light Yellow", "#FFFF99"),
     ("Yellow", "#FFFF00"), ("Light Orange", "#FFB347"), ("Orange", "#FFA500"),
     ("Light Coral", "#F08080"), ("Coral", "#FF7F50"), ("Pink", "#FFC0CB")]
    + [("Light Pink", "#FFB6C1"), ("Red", "#FF0000"), ("Dark Red", "#8B0000"),
       ("Light Blue", "#ADD8E6"), ("Blue", "#0000FF"), ("Dark Blue", "#00008B"),
       ("Navy", "#000080"), ("Light Green", "#90EE90"), ("Green", "#008000")]
    + [("Dark Green", "#006400"), ("Purple", "#800080"), ("Light Purple", "#DDA0DD"),
       ("Brown", "#A52A2A"), ("Light Brown", "#D2B48C"), ("Gray", "#808080"),
       ("Light Gray", "#D3D3D3"), ("Dark Gray", "#A9A9A9"), ("Black", "#000000")]

  /** `dmcSymbols`: the chart symbol of every colour name. */
  const Symbols: map<string, string> :=
    map["White" := "□", "Ecru" := "○", "Light Yellow" := "△", "Yellow" := "▲",
        "Light Orange" := "◇", "Orange" := "◆", "Light Coral" := "☆", "Coral" := "★",
        "Pink" := "♡", "Light Pink" := "♥", "Red" := "●", "Dark Red" := "■",
        "Light Blue" := "◯", "Blue" := "▼", "Dark Blue" := "▽", "Navy" := "◀",
        "Light Green" := "▶", "Green" := "◈", "Dark Green" := "◉", "Purple" := "♦",
        "Light Purple" := "♢", "Brown" := "▣", "Light Brown" := "▤", "Gray" := "▥",
        "Light Gray" := "▦", "Dark Gray" := "▧", "Black" := "█"]

  /** The palette has 27 colours, each `'#'` and six hexadecimal digits. */
  lemma ColorsWellFormed()
    ensures |Colors| == 27
    ensures forall i :: 0 <= i < |Colors| ==> IsStoredColor(Colors[i].1)
  {
    forall i | 0 <= i < |Colors|
      ensures IsStoredColor(Colors[i].1)
    {
      var s := Colors[i].1;
      assert |s| == 7 && s[0] == '#';
    }
  }

  /** The symbol table has exactly the palette's names as keys. */
  lemma SymbolsCoverColors()
    ensures forall i :: 0 <= i < |Colors| ==> Colors[i].0 in Symbols
    ensures forall k :: k in Symbols ==> exists i :: 0 <= i < |Colors| && Colors[i].0 == k
  {
    forall k | k in Symbols
      ensures exists i :: 0 <= i < |Colors| && Colors[i].0 == k
    {
      if k == "White" {
        assert Colors[0].0 == k;
      } else if k == "Ecru" {
        assert Colors[1].0 == k;
      } else if k == "Light Yellow" {
        assert Colors[2].0 == k;
      } else if k == "Yellow" {
        assert Colors[3].0 == k;
      } else if k == "Light Orange" {
        assert Colors[4].0 == k;
      } else if k == "Orange" {
        assert Colors[5].0 == k;
      } else if k == "Light Coral" {
        assert Colors[6].0 == k;
      } else if k == "Coral" {
        assert Colors[7].0 == k;
      } else if k == "Pink" {
        assert Colors[8].0 == k;
      } else if k == "Light Pink" {
        assert Colors[9].0 == k;
      } else if k == "Red" {
        assert Colors[10].0 == k;
      } else if k == "Dark Red" {
        assert Colors[11].0 == k;
      } else if k == "Light Blue" {
        assert Colors[12].0 == k;
      } else if k == "Blue" {
        assert Colors[13].0 == k;
      } else if k == "Dark Blue" {
        assert Colors[14].0 == k;
      } else if k == "Navy" {
        assert Colors[15].0 == k;
      } else if k == "Light Green" {
        assert Colors[16].0 == k;
      } else if k == "Green" {
        assert Colors[17].0 == k;
      } else if k == "Dark Green" {
        assert Colors[18].0 == k;
      } else if k == "Purple" {
        assert Colors[19].0 == k;
      } else if k == "Light Purple" {
        assert Colors[20].0 == k;
      } else if k == "Brown" {
        assert Colors[21].0 == k;
      } else if k == "Light Brown" {
        assert Colors[22].0 == k;
      } else if k == "Gray" {
        assert Colors[23].0 == k;
      } else if k == "Light Gray" {
        assert Colors[24].0 == k;
      } else if k == "Dark Gray" {
        assert Colors[25].0 == k;
      } else if k == "Black" {
        assert Colors[26].0 == k;
      }
    }
  }

  /** White and Black are in the palette. */
  lemma WhiteAndBlack()
    ensures Colors[0] == ("White", "#FFFFFF")
    ensures Colors[|Colors| - 1] == ("Black", "#000000")
  {
  }

  /** One entry of `getColorArray`. */
  datatype Entry = Entry(name: string, hex: string, symbol: string)

  /** getColorArray: every palette entry with its symbol, in palette
      order. */
  function ColorArray(): (es: seq<Entry>)
    ensures |es| == |Colors|
    ensures forall i :: 0 <= i < |es| ==>
      es[i].name == Colors[i].0 && es[i].hex == Colors[i].1
      && Colors[i].0 in Symbols && es[i].symbol == Symbols[Colors[i].0]
  {
    SymbolsCoverColors();
    seq(|Colors|, i requires 0 <= i < |Colors| =>
      assert Colors[i].0 in Symbols;
      Entry(Colors[i].0, Colors[i].1, Symbols[Colors[i].0]))
  }

  /** Every hex string of the palette array is a stored colour. */
  lemma ColorArrayWellFormed()
    ensures |ColorArray()| > 0
    ensures forall i :: 0 <= i < |ColorArray()| ==> IsStoredColor(ColorArray()[i].hex)
  {
    ColorsWellFormed();
  }
}
