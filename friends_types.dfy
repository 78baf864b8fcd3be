/** The records of apps/friends-app/types.ts. Dates are ISO 8601 strings. */
module FriendsTypes {
  import opened Wrappers
  import Collections

  datatype Meeting = Meeting(date: string, notes: Option<string>)

  datatype Friend = Friend(
    id: string,
    name: string,
    avatarImage: Option<string>,
    tags: seq<string>,
    notes: string,
    birthday: Option<string>,
    meetings: seq<Meeting>)

  /** What the friend form hands to `onSave`: a friend whose `id` is present only when editing. */
  datatype FriendDraft = FriendDraft(
    id: Option<string>,
    name: string,
    avatarImage: Option<string>,
    tags: seq<string>,
    notes: string,
    birthday: Option<string>,
    meetings: seq<Meeting>)

  /** The order the form and the card sort meetings in: `a` no later than `b` by the time of its date.
      `timeOf` stands for `new Date(d).getTime()`. */
  function Earlier(timeOf: string -> int): (Meeting, Meeting) -> bool
  {
    (a: Meeting, b: Meeting) => timeOf(a.date) <= timeOf(b.date)
  }

  function Later(timeOf: string -> int): (Meeting, Meeting) -> bool
  {
    (a: Meeting, b: Meeting) => timeOf(a.date) >= timeOf(b.date)
  }

  lemma OrdersArePreorders(timeOf: string -> int)
    ensures Collections.TotalPreorder(Earlier(timeOf)) && Collections.TotalPreorder(Later(timeOf))
  {
  }
}
