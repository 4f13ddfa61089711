/** Urgency tiers and the classified inventory item. */
module Models {

  /** Stock urgency tiers, declared from most to least severe. */
  datatype Urgency = Critical | Urgent | Warning | Ok

  /** The tier's enumeration value, the primary sort key: lower is more severe. */
  function Value(u: Urgency): (v: int)
    ensures 1 <= v <= 4
  {
    match u
    case Critical => 1
    case Urgent => 2
    case Warning => 3
    case Ok => 4
  }

  /** `u` is strictly more severe than `v`. */
  predicate MoreSevere(u: Urgency, v: Urgency)
  {
    Value(u) < Value(v)
  }

  lemma SeverityOrder()
    ensures MoreSevere(Critical, Urgent) && MoreSevere(Urgent, Warning) && MoreSevere(Warning, Ok)
  {
  }

  lemma ValueInjective(u: Urgency, v: Urgency)
    ensures Value(u) == Value(v) <==> u == v
  {
  }

  /** The coloured circle shown in the status column. */
  function Emoji(u: Urgency): (s: string)
    ensures |s| == 1
  {
    match u
    case Critical => "\U{1F534}"
    case Urgent => "\U{1F7E0}"
    case Warning => "\U{1F7E1}"
    case Ok => "\U{1F7E2}"
  }

  /** The tier's name as shown in the export. */
  function Label(u: Urgency): (s: string)
    ensures |s| >= 2
  {
    match u
    case Critical => "Critical"
    case Urgent => "Urgent"
    case Warning => "Warning"
    case Ok => "OK"
  }

  lemma EmojiInjective(u: Urgency, v: Urgency)
    ensures Emoji(u) == Emoji(v) <==> u == v
  {
  }

  lemma LabelInjective(u: Urgency, v: Urgency)
    ensures Label(u) == Label(v) <==> u == v
  {
  }

  /** One classified item; created once from a valid row and never changed. */
  datatype InventoryItem = InventoryItem(
    itemId: string,
    sku: string,
    category: string,
    displayName: string,
    qoh: int,
    monthlyAverage: real,
    monthsOfStock: real,
    urgency: Urgency,
    suggestedOrderQty: int)

  /**
   * What every classified item satisfies: active demand, non-negative stock,
   * order and coverage, and a tier that agrees with the coverage.
   */
  predicate WellFormed(it: InventoryItem)
  {
    && it.monthlyAverage > 0.0
    && it.qoh >= 0
    && it.monthsOfStock >= 0.0
    && it.suggestedOrderQty >= 0
    && (it.monthsOfStock == 0.0 ==> it.urgency == Critical)
    && (0.0 < it.monthsOfStock < 1.0 ==> it.urgency == Urgent)
    && (1.0 <= it.monthsOfStock < 2.0 ==> it.urgency == Warning)
    && (2.0 <= it.monthsOfStock ==> it.urgency == Ok)
  }

  /** The status cell: the tier's circle, one space, the tier's name. */
  function StatusDisplay(it: InventoryItem): (s: string)
    ensures |s| == |Emoji(it.urgency)| + 1 + |Label(it.urgency)|
    ensures s[..1] == Emoji(it.urgency) && s[1] == ' ' && s[2..] == Label(it.urgency)
  {
    Emoji(it.urgency) + " " + Label(it.urgency)
  }

  lemma StatusDisplayDeterminesTier(a: InventoryItem, b: InventoryItem)
    ensures StatusDisplay(a) == StatusDisplay(b) <==> a.urgency == b.urgency
  {
    if StatusDisplay(a) == StatusDisplay(b) {
      EmojiInjective(a.urgency, b.urgency);
    }
  }
}
