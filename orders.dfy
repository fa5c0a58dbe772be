/** OrderValidator and the order model types it checks. */
module Orders {
  import opened Text

  /** OrderCreateDto. The decimal Total is only compared with zero, so it is
      a real number here. */
  datatype OrderCreateDto = OrderCreateDto(userId: int, total: real, status: Option<string>)

  /** The User of the order models: an id and a username, no email. */
  datatype User = User(id: int, username: Option<string>)

  /** The outcome of a validation: the flag and the error message, if any. */
  datatype Validation = Validation(isValid: bool, error: Option<string>)

  const AllowedStatuses: seq<string> := ["Pending", "Processing", "Completed", "Cancelled"]

  const TotalError: string := "Total must be greater than 0"
  const UserError: string := "UserId does not exist"
  const StatusError: string := "Status must be one of: " + Join(",", AllowedStatuses)

  predicate UserExists(users: seq<User>, id: int) {
    exists k :: 0 <= k < |users| && users[k].id == id
  }

  /** A missing status is accepted; a present one must match exactly. */
  predicate StatusAllowed(status: Option<string>) {
    status.None? || status.value in AllowedStatuses
  }

  /** The message of every rule the order breaks, in the order the rules
      are listed. */
  function Failures(dto: OrderCreateDto, users: seq<User>): seq<string> {
    (if dto.total <= 0.0 then [TotalError] else [])
    + (if UserExists(users, dto.userId) then [] else [UserError])
    + (if StatusAllowed(dto.status) then [] else [StatusError])
  }

  /** OrderValidator.Validate: the first broken rule decides the error. */
  function Validate(dto: OrderCreateDto, users: seq<User>): (r: Validation)
    ensures r.isValid <==> dto.total > 0.0 && UserExists(users, dto.userId) && StatusAllowed(dto.status)
    ensures r.isValid <==> r.error == None
    ensures r.error == if Failures(dto, users) == [] then None else Some(Failures(dto, users)[0])
    ensures dto.total <= 0.0 ==> r == Validation(false, Some(TotalError))
    ensures dto.total > 0.0 && !UserExists(users, dto.userId) ==> r == Validation(false, Some(UserError))
    ensures dto.status == None ==> (r.isValid <==> dto.total > 0.0 && UserExists(users, dto.userId))
  {
    if dto.total <= 0.0 then Validation(false, Some(TotalError))
    else if !UserExists(users, dto.userId) then Validation(false, Some(UserError))
    else if dto.status.Some? && dto.status.value !in AllowedStatuses then Validation(false, Some(StatusError))
    else Validation(true, None)
  }

  /** The allowed statuses, joined by commas. */
  lemma {:induction false} AllowedStatusesJoined()
    ensures Join(",", AllowedStatuses) == "Pending,Processing,Completed,Cancelled"
  {
    var tail := ["Completed", "Cancelled"];
    assert tail[1..] == ["Cancelled"];
    assert Join(",", tail) == "Completed,Cancelled";
    var rest := ["Processing"] + tail;
    assert rest[1..] == tail;
    assert Join(",", rest) == "Processing,Completed,Cancelled";
    assert AllowedStatuses[1..] == rest;
  }

  /** The status error lists the allowed statuses joined by commas. */
  lemma StatusErrorText()
    ensures StatusError == "Status must be one of: Pending,Processing,Completed,Cancelled"
  {
    AllowedStatusesJoined();
    StatusPrefixed(Join(",", AllowedStatuses));
  }

  lemma StatusPrefixed(list: string)
    requires list == "Pending,Processing,Completed,Cancelled"
    ensures "Status must be one of: " + list == "Status must be one of: Pending,Processing,Completed,Cancelled"
  {
  }

  /** The status match is case-sensitive and closed: "pending" and "Shipped"
      are both refused once the total and the user are fine. */
  lemma StatusIsCaseSensitive(users: seq<User>, id: int, total: real)
    requires UserExists(users, id) && total > 0.0
    ensures Validate(OrderCreateDto(id, total, Some("pending")), users) == Validation(false, Some(StatusError))
    ensures Validate(OrderCreateDto(id, total, Some("Shipped")), users) == Validation(false, Some(StatusError))
    ensures Validate(OrderCreateDto(id, total, Some("Pending")), users) == Validation(true, None)
  {
    assert "pending" != AllowedStatuses[0] by { assert "pending"[0] != AllowedStatuses[0][0]; }
    assert "Shipped" != AllowedStatuses[0] by { assert "Shipped"[0] != AllowedStatuses[0][0]; }
  }
}
