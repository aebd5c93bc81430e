/**
 * The settings store: billing mode and block length, the unused grace
 * period, and the receipt settings (shop details, header order, print
 * style), each replaced or merged by its setter.
 */
module SettingsStore {
  import opened Common

  datatype PaperSize = Paper58 | Paper80
  datatype FontSize = Small | Base | Large
  datatype FontFamily = Sans | Mono | Serif
  datatype Alignment = Left | Center | Right

  datatype PrintStyle = PrintStyle(paperSize: PaperSize, fontSize: FontSize, fontFamily: FontFamily, alignment: Alignment)

  /** A partial print style: the fields given replace, the others are kept. */
  datatype PrintStylePatch = PrintStylePatch(
    paperSize: Option<PaperSize>, fontSize: Option<FontSize>,
    fontFamily: Option<FontFamily>, alignment: Option<Alignment>)

  /** A partial set of shop details. */
  datatype ShopPatch = ShopPatch(
    shopName: Option<string>, shopAddress: Option<string>,
    shopPhone: Option<string>, receiptFooter: Option<string>)

  /** `{ ...style, ...patch }` on a print style. */
  function MergeStyle(style: PrintStyle, patch: PrintStylePatch): (r: PrintStyle)
    ensures r.paperSize == OrElse(patch.paperSize, style.paperSize)
    ensures r.fontSize == OrElse(patch.fontSize, style.fontSize)
    ensures r.fontFamily == OrElse(patch.fontFamily, style.fontFamily)
    ensures r.alignment == OrElse(patch.alignment, style.alignment)
  {
    PrintStyle(OrElse(patch.paperSize, style.paperSize), OrElse(patch.fontSize, style.fontSize),
               OrElse(patch.fontFamily, style.fontFamily), OrElse(patch.alignment, style.alignment))
  }

  /** An empty patch changes nothing. */
  lemma MergeEmpty(style: PrintStyle)
    ensures MergeStyle(style, PrintStylePatch(None, None, None, None)) == style
  {
  }

  /** Applying the same patch twice is the same as applying it once. */
  lemma MergeIdempotent(style: PrintStyle, patch: PrintStylePatch)
    ensures MergeStyle(MergeStyle(style, patch), patch) == MergeStyle(style, patch)
  {
  }

  /** A full patch replaces the whole style. */
  lemma MergeFull(style: PrintStyle, s: PrintStyle)
    ensures MergeStyle(style, PrintStylePatch(Some(s.paperSize), Some(s.fontSize), Some(s.fontFamily), Some(s.alignment))) == s
  {
  }

  /** The receipt header parts. */
  const HeaderShopName := "shopName"
  const HeaderShopAddress := "shopAddress"
  const HeaderShopPhone := "shopPhone"

  class Settings {
    var billingBlockDuration: int
    var enableBlockBilling: bool
    var gracePeriod: int
    var shopName: string
    var shopAddress: string
    var shopPhone: string
    var receiptFooter: string
    var headerLayout: seq<string>
    var printStyle: PrintStyle

    /** The defaults: hourly billing with one-hour blocks, a 5-minute grace period, the demo shop. */
    constructor ()
      ensures billingBlockDuration == 60 && !enableBlockBilling && gracePeriod == 5
      ensures shopName == "POS365 Store"
      ensures shopAddress == "123 Đường ABC, Phường XYZ, TP.HCM"
      ensures shopPhone == "0901234567"
      ensures receiptFooter == "Cảm ơn Quý khách. Hẹn gặp lại!"
      ensures headerLayout == [HeaderShopName, HeaderShopAddress, HeaderShopPhone]
      ensures printStyle == PrintStyle(Paper80, Base, Sans, Center)
    {
      billingBlockDuration := 60;
      enableBlockBilling := false;
      gracePeriod := 5;
      shopName := "POS365 Store";
      shopAddress := "123 Đường ABC, Phường XYZ, TP.HCM";
      shopPhone := "0901234567";
      receiptFooter := "Cảm ơn Quý khách. Hẹn gặp lại!";
      headerLayout := [HeaderShopName, HeaderShopAddress, HeaderShopPhone];
      printStyle := PrintStyle(Paper80, Base, Sans, Center);
    }

    /** The receipt settings, everything but the billing fields. */
    function Receipt(): (string, string, string, string, seq<string>, PrintStyle)
      reads this
    {
      (shopName, shopAddress, shopPhone, receiptFooter, headerLayout, printStyle)
    }

    method SetBillingBlockDuration(duration: int)
      modifies this
      ensures billingBlockDuration == duration
      ensures enableBlockBilling == old(enableBlockBilling) && gracePeriod == old(gracePeriod)
      ensures Receipt() == old(Receipt())
    {
      billingBlockDuration := duration;
    }

    method SetEnableBlockBilling(enable: bool)
      modifies this
      ensures enableBlockBilling == enable
      ensures billingBlockDuration == old(billingBlockDuration) && gracePeriod == old(gracePeriod)
      ensures Receipt() == old(Receipt())
    {
      enableBlockBilling := enable;
    }

    method SetGracePeriod(minutes: int)
      modifies this
      ensures gracePeriod == minutes
      ensures billingBlockDuration == old(billingBlockDuration) && enableBlockBilling == old(enableBlockBilling)
      ensures Receipt() == old(Receipt())
    {
      gracePeriod := minutes;
    }

    /** `{ ...state, ...settings }`: the shop fields given replace the current ones. */
    method SetShopSettings(patch: ShopPatch)
      modifies this
      ensures shopName == OrElse(patch.shopName, old(shopName))
      ensures shopAddress == OrElse(patch.shopAddress, old(shopAddress))
      ensures shopPhone == OrElse(patch.shopPhone, old(shopPhone))
      ensures receiptFooter == OrElse(patch.receiptFooter, old(receiptFooter))
      ensures headerLayout == old(headerLayout) && printStyle == old(printStyle)
      ensures billingBlockDuration == old(billingBlockDuration) && enableBlockBilling == old(enableBlockBilling)
      ensures gracePeriod == old(gracePeriod)
    {
      shopName := OrElse(patch.shopName, shopName);
      shopAddress := OrElse(patch.shopAddress, shopAddress);
      shopPhone := OrElse(patch.shopPhone, shopPhone);
      receiptFooter := OrElse(patch.receiptFooter, receiptFooter);
    }

    method SetHeaderLayout(layout: seq<string>)
      modifies this
      ensures headerLayout == layout
      ensures shopName == old(shopName) && shopAddress == old(shopAddress) && shopPhone == old(shopPhone)
      ensures receiptFooter == old(receiptFooter) && printStyle == old(printStyle)
      ensures billingBlockDuration == old(billingBlockDuration) && enableBlockBilling == old(enableBlockBilling)
      ensures gracePeriod == old(gracePeriod)
    {
      headerLayout := layout;
    }

    /** `{ ...state.printStyle, ...style }`. */
    method SetPrintStyle(patch: PrintStylePatch)
      modifies this
      ensures printStyle == MergeStyle(old(printStyle), patch)
      ensures shopName == old(shopName) && shopAddress == old(shopAddress) && shopPhone == old(shopPhone)
      ensures receiptFooter == old(receiptFooter) && headerLayout == old(headerLayout)
      ensures billingBlockDuration == old(billingBlockDuration) && enableBlockBilling == old(enableBlockBilling)
      ensures gracePeriod == old(gracePeriod)
    {
      printStyle := MergeStyle(printStyle, patch);
    }
  }
}
