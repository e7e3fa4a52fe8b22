/** What names an item, and the attributes an item or a hero is set to. */
module Items {
  import opened Machine

  type ItemId = u16

  datatype Attribute = Strength | Agility | Intelligence
}
