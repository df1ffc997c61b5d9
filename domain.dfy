/**
 * Records of the item-sharing service and the error taxonomy its services
 * raise. Timestamps are plain integers; the services never do arithmetic on
 * them, they only compare them.
 */
module Domain {

  datatype Option<T> = None | Some(value: T)

  /** Approval status of a booking. */
  datatype Status = Waiting | Approved | Rejected | Canceled

  /** Filter of the booking listings, as named by the `state` query token. */
  datatype State = All | Current | Past | Future | Waiting | Rejected

  /** A registered user; only its existence matters to the core. */
  datatype User = User(id: int, name: string, email: string)

  /**
   * A catalog item. `owner` is the id of the user the item belongs to and
   * `request` the optional id of the item request it answers.
   */
  datatype Item = Item(
    id: int,
    name: string,
    description: string,
    owner: int,
    available: bool,
    request: Option<int>)

  /**
   * A booking row. The item and the booker are held by id, as the join
   * columns `item_id` and `booker_id` hold them.
   */
  datatype Booking = Booking(
    id: int,
    itemId: int,
    bookerId: int,
    start: int,
    end: int,
    status: Status)

  /**
   * The services' failures: ValidationException, NotFoundException and
   * ConflictException with their messages, and the persistence layer's own
   * failure when a lazy item reference names no row (its text is not the
   * services' to choose).
   */
  datatype Error =
    | ValidationError(message: string)
    | NotFoundError(message: string)
    | ConflictError(message: string)
    | EntityMissing

  datatype Result<T> = Ok(value: T) | Err(error: Error)

  // Messages the services attach to their failures.
  const InvalidPeriod: string := "Время начала бронирования указано после окончания бронирования или равно ему"
  const ItemUnavailable: string := "Бронирование вещи с недоступно в данный момент"
  const SelfBooking: string := "Пользователь не может арендовать у себя"
  /** Used both for a missing user and, in createBooking, for a missing item. */
  const UserNotFound: string := "Пользователь не найден"
  const BookingNotFound: string := "Бронирование не найдено"
  const NotItemOwner: string := "Забронированная вещь не принадлежит пользователю, желающему внести изменения"
  const NotParticipant: string := "Бронирование или вещь не принадлежит пользователю"
  const AlreadyApproved: string := "Бронирование уже подтверждено, при необходимости можно отменить его"
  const AlreadyRejected: string := "Бронирование отменено, изменение статуса повторно не возможно"
  const UnknownState: string := "Unknown state: UNSUPPORTED_STATUS"
  const OwnerNotFound: string := "Пользователя с указанным Id не существует"
  const ItemNotFound: string := "Вещи с указанным Id не существует"

  /** Sort key of the item listings: ascending item id. */
  function ItemId(it: Item): int { it.id }

  /** Sort key of the booking listings: ascending key means descending start. */
  function StartDescKey(b: Booking): int { -b.start }
}
