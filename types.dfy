/**
 * The value types the client shares between the codec, the room view and the
 * local user (src/lib/app.svelte.ts and the enums of src/lib/network.ts).
 */
module Types {
  import opened Bits

  datatype Option<T> = None | Some(value: T)

  /**
   * A participant's vote: `null`, a number, a string (kept as its UTF-8
   * bytes) or a pair of numbers. Numbers are integers here.
   */
  datatype Choice =
    | NoChoice
    | Number(n: int)
    | Text(s: seq<byte>)
    | Pair(first: int, second: int)

  /** The wire tag of each kind of choice (enum ChoiceType). */
  const SingleNumber: nat := 0
  const SingleString: nat := 1
  const TwoNumbers: nat := 2
  const NoneTag: nat := 3

  function ChoiceTag(c: Choice): (t: nat)
    ensures t < 4
  {
    match c
    case Number(_) => SingleNumber
    case Text(_) => SingleString
    case Pair(_, _) => TwoNumbers
    case NoChoice => NoneTag
  }

  datatype RoomType = StoryPoints | PersonDays

  /** The enum value a room type is sent as. */
  function RoomTypeBit(t: RoomType): nat
  {
    if t == StoryPoints then 0 else 1
  }

  /** `n as RoomType` for the one bit the reader delivers. */
  function RoomTypeOf(n: nat): RoomType
  {
    if n == 0 then StoryPoints else PersonDays
  }

  /** One participant as the client keeps it (type UserData). */
  datatype UserData = UserData(
    id: int,
    name: seq<byte>,
    hero: int,
    choice: Choice,
    spectator: bool,
    edited: bool)
}
