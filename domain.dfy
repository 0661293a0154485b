/** Entities shared by the model, the helpers and the presenters of the trip planner. */
module Domain {

  /** A route point as the code reads it. The data model sorts on the wire field `date_from`
      (here `wireDateFrom`) while the helpers and the trip presenter read `dateFrom`, `dateTo`
      and `price`; both spellings are kept because the code uses both. Timestamps are integer
      milliseconds. */
  datatype Point = Point(
    id: string,
    kind: string,
    city: string,
    wireDateFrom: int,
    dateFrom: int,
    dateTo: int,
    price: int,
    isFavorite: bool)

  /** One group of the offer catalogue (offers are grouped by point type). */
  datatype Offer = Offer(id: string, title: string, price: int)
  datatype OfferGroup = OfferGroup(kind: string, offers: seq<Offer>)

  /** A destination of the destination catalogue. */
  datatype Destination = Destination(id: string, name: string, description: string)

  /** The tag a model notification carries. */
  datatype UpdateType = Patch | Minor | Major | Init | Error

  /** The mutation a presenter asks for. */
  datatype UserAction = UpdatePoint | AddPoint | DeletePoint

  /** The ordering chosen in the sort control; `Unknown` stands for any other value. */
  datatype SortType = Day | Time | Price | Unknown

  datatype Option<T> = None | Some(value: T)
}
