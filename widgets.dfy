/** The tree widget items both browsers of the GUI build. */
module Widgets {
  /** A tree widget item: its text and its children in insertion order. */
  datatype Item = Item(text: string, children: seq<Item>)
}
