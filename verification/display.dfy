/** The `getItem*` display helpers of the ingredients panel
    (src/app/ingredients/ingredients.component.ts, lines 10 and 121-150):
    image URL, sprite offset, sprite-sheet scale and CSS filter. */
module Display {
  import opened Wrappers
  import opened Decimal
  import opened Ingredients

  /** `ITEM_SPRITE_SIZE`: the edge of one sprite cell, in pixels. */
  const ItemSpriteSize: int := 32

  /** The one item drawn from its own image instead of a sprite sheet. */
  const LightBulbId: string := "LightBulbItem"

  /** The large sprite sheet. */
  const BakedIconsFile: string := "UI_Icons_Baked_0.png"

  /** `getItemImageUrl(item)`, with the `imageBaseUrl` input. */
  function ItemImageUrl(imageBaseUrl: string, item: Item): (r: string)
    ensures |imageBaseUrl| <= |r| && r[..|imageBaseUrl|] == imageBaseUrl
    ensures item.nameID == LightBulbId ==> r[|imageBaseUrl|..] == "lightbulb.png"
    ensures item.nameID != LightBulbId ==> r[|imageBaseUrl|..] == item.imageFile
  {
    if item.nameID == LightBulbId then imageBaseUrl + "lightbulb.png" else imageBaseUrl + item.imageFile
  }

  /** `getItemSpritePosition(item)`: the CSS offset of the item's cell. */
  function ItemSpritePosition(item: Item): (r: string)
    ensures item.nameID == LightBulbId ==> r == "0px 0px"
    ensures item.nameID != LightBulbId ==>
      exists x, y :: && r == "-" + x + "px -" + y + "px"
                     && IsCanonical(x) && ParseInt(x) == Some(item.xPos * ItemSpriteSize)
                     && IsCanonical(y) && ParseInt(y) == Some(item.yPos * ItemSpriteSize)
                     && x == IntToString(item.xPos * ItemSpriteSize)
                     && y == IntToString(item.yPos * ItemSpriteSize)
  {
    if item.nameID == LightBulbId then "0px 0px"
    else
      var x, y := IntToString(item.xPos * ItemSpriteSize), IntToString(item.yPos * ItemSpriteSize);
      IntRoundTrip(item.xPos * ItemSpriteSize);
      IntRoundTrip(item.yPos * ItemSpriteSize);
      "-" + x + "px -" + y + "px"
  }

  /** `getItemBackgroundSize(item)`: the scale of the sheet the sprite is on. */
  function ItemBackgroundSize(item: Item): (r: string)
    ensures r in {"32px", "2048px", "512px"}
    ensures r == "32px" <==> item.nameID == LightBulbId
    ensures r == "2048px" <==> item.nameID != LightBulbId && item.imageFile == BakedIconsFile
  {
    if item.nameID == LightBulbId then "32px"
    else if BakedIconsFile == item.imageFile then "2048px"
    else "512px"
  }

  /** `getItemFilter(item)`: the item's filter, or no filter. */
  function ItemFilter(item: Item): (r: string)
    ensures item.filter.None? ==> r == ""
    ensures item.filter.Some? ==> r == item.filter.value
  {
    match item.filter
    case Some(f) => f
    case None => ""
  }

  /** The light bulb looks the same wherever the catalog places it. */
  lemma LightBulbIgnoresSprite(imageBaseUrl: string, a: Item, b: Item)
    requires a.nameID == LightBulbId && b.nameID == LightBulbId
    ensures ItemImageUrl(imageBaseUrl, a) == ItemImageUrl(imageBaseUrl, b)
    ensures ItemSpritePosition(a) == ItemSpritePosition(b)
    ensures ItemBackgroundSize(a) == ItemBackgroundSize(b)
  {
  }

  /** The offset text `-X px -Y px` splits back into `X` and `Y` when `X`
      holds no `p`. */
  lemma OffsetSplits(xa: string, ya: string, xb: string, yb: string)
    requires 'p' !in xa && 'p' !in xb
    requires "-" + xa + "px -" + ya + "px" == "-" + xb + "px -" + yb + "px"
    ensures xa == xb && ya == yb
  {
    var sa := "-" + xa + "px -" + ya + "px";
    var sb := "-" + xb + "px -" + yb + "px";
    assert sa[1 + |xa|] == 'p';
    assert sb[1 + |xb|] == 'p';
    assert |xa| == |xb|;
    assert xa == sa[1..1 + |xa|];
    assert xb == sb[1..1 + |xb|];
    assert ya == sa[1 + |xa| + 4..|sa| - 2];
    assert yb == sb[1 + |xb| + 4..|sb| - 2];
  }

  /** Two sprite items share an offset only when they share a cell. */
  lemma SpritePositionIdentifiesCell(a: Item, b: Item)
    requires a.nameID != LightBulbId && b.nameID != LightBulbId
    requires ItemSpritePosition(a) == ItemSpritePosition(b)
    ensures a.xPos == b.xPos && a.yPos == b.yPos
  {
    var xa := IntToString(a.xPos * ItemSpriteSize);
    var xb := IntToString(b.xPos * ItemSpriteSize);
    assert 'p' !in xa && 'p' !in xb;
    OffsetSplits(xa, IntToString(a.yPos * ItemSpriteSize), xb, IntToString(b.yPos * ItemSpriteSize));
    IntToStringInjective(a.xPos * ItemSpriteSize, b.xPos * ItemSpriteSize);
    IntToStringInjective(a.yPos * ItemSpriteSize, b.yPos * ItemSpriteSize);
  }
}
