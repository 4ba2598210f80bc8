/** The record a menu is made of (src/utils/types.ts). */
module Menu {

  /** A dish. Every field is text; `course` is meant to be one of `Courses`
      but is not restricted to it, and `price` is parsed when it is used. */
  datatype MenuItem = MenuItem(id: string, name: string, description: string, course: string, price: string)

  /** The closed list of course names, in display order. */
  const Courses: seq<string> := ["Starters", "Mains", "Desserts"]

  /** No two items of the collection share an id. */
  predicate DistinctIds(items: seq<MenuItem>) {
    forall i, j :: 0 <= i < j < |items| ==> items[i].id != items[j].id
  }

  /** The filter callback `item => item.course === course`. */
  function CourseIs(course: string): MenuItem -> bool {
    (item: MenuItem) => item.course == course
  }

  /** The filter callback `item => item.id !== id`. */
  function IdIsNot(id: string): MenuItem -> bool {
    (item: MenuItem) => item.id != id
  }
}
