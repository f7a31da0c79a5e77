/**
 * Value objects of the address book: tags (plain or priority), clients and
 * the 1-based index a user types to pick a client from the displayed list.
 */
module ClientModel {
  import opened Results
  import opened Phones

  /** A label on a client; the priority variant marks a client as urgent. */
  datatype Tag = PlainTag(name: string) | PriorityTag(name: string)

  datatype TagError = InvalidTagName

  /** The one tag-name rule this model relies on: a tag name is never empty. */
  predicate IsValidTagName(name: string) {
    |name| > 0
  }

  predicate IsValidTag(t: Tag) {
    IsValidTagName(t.name)
  }

  /** The Tag constructor: it refuses an invalid name. */
  function MakeTag(name: string): (r: Result<Tag, TagError>)
    ensures r.Success? <==> IsValidTagName(name)
    ensures r.Success? ==> r.value == PlainTag(name) && IsValidTag(r.value)
  {
    if IsValidTagName(name) then Success(PlainTag(name)) else Failure(InvalidTagName)
  }

  /** The PriorityTag constructor: it refuses an invalid name. */
  function MakePriorityTag(name: string): (r: Result<Tag, TagError>)
    ensures r.Success? <==> IsValidTagName(name)
    ensures r.Success? ==> r.value.PriorityTag? && r.value.name == name && IsValidTag(r.value)
  {
    if IsValidTagName(name) then Success(PriorityTag(name)) else Failure(InvalidTagName)
  }

  /** An empty name is refused by the priority tag constructor. */
  lemma EmptyPriorityTagNameRejected()
    ensures MakePriorityTag("") == Failure(InvalidTagName)
    ensures MakeTag("") == Failure(InvalidTagName)
  {
  }

  /** A client record; its tags are the insurance policies it holds. */
  datatype Client = Client(name: string, phone: Phone, email: string, address: string, tags: set<Tag>)

  /** The client with the same name, phone, email and address but the given tags. */
  function WithTags(c: Client, tags: set<Tag>): (r: Client)
    ensures r.tags == tags
    ensures r.name == c.name && r.phone == c.phone && r.email == c.email && r.address == c.address
  {
    c.(tags := tags)
  }

  /** A 1-based position in the displayed client list. */
  type OneBased = n: int | n >= 1 witness 1
}
