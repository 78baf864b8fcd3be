/** The friend form of apps/friends-app/FriendForm.tsx: its fields, the meeting list it edits, the tag
    parsing and the record `handleSubmit` hands on. */
module FriendForm {
  import opened Wrappers
  import opened FriendsTypes
  import Text
  import Collections

  // ---------------------------------------------------------------------------
  // Tags: `tags.split(',').map(t => t.trim()).filter(Boolean)`
  // ---------------------------------------------------------------------------

  /** `.map(t => t.trim())`. */
  function TrimAll(parts: seq<string>): (r: seq<string>)
    ensures |r| == |parts| && forall i :: 0 <= i < |parts| ==> r[i] == Text.Trim(parts[i])
  {
    Collections.Map(parts, Text.Trim)
  }

  predicate NonEmpty(t: string) { t != "" }

  /** A well-formed tag: non-empty, free of commas, and with nothing for `trim` to take off. */
  predicate WellFormedTag(t: string)
  {
    t != "" && ',' !in t && !Text.IsSpace(t[0]) && !Text.IsSpace(t[|t| - 1])
  }

  /** A comma-free segment trims to nothing or to a well-formed tag. */
  lemma TrimmedSegment(part: string)
    requires ',' !in part
    ensures Text.Trim(part) == "" || WellFormedTag(Text.Trim(part))
  {
    Text.TrimSpec(part);
    Text.TrimKeepsChars(part);
  }

  /** The tags typed into the form: the comma-separated segments, trimmed, empty ones dropped. */
  function ParseTags(text: string): (tags: seq<string>)
    ensures tags == Collections.Filter(TrimAll(Text.Split(text, ',')), NonEmpty)
    ensures forall t :: t in tags ==> WellFormedTag(t)
    ensures Collections.Subsequence(tags, TrimAll(Text.Split(text, ',')))
  {
    var parts := Text.Split(text, ',');
    var trimmed := TrimAll(parts);
    assert forall k :: 0 <= k < |trimmed| ==> trimmed[k] == "" || WellFormedTag(trimmed[k]) by {
      forall k | 0 <= k < |trimmed| ensures trimmed[k] == "" || WellFormedTag(trimmed[k]) {
        TrimmedSegment(parts[k]);
      }
    }
    Collections.Filter(trimmed, NonEmpty)
  }

  /** The tags a form opens with: the friend's tags joined by ", ". */
  function TagsText(tags: seq<string>): string
  {
    Text.Join(tags, ", ")
  }

  lemma TrimLeadingSpace(x: string)
    ensures Text.Trim([' '] + x) == Text.Trim(x)
  {
    assert ([' '] + x)[1..] == x;
  }

  /** Past the first tag, the joined text splits at the comma after it into the segments of the rest, the
      first of them led by the space of the separator. */
  lemma SplitOfText(tags: seq<string>)
    requires |tags| > 1 && ',' !in tags[0]
    ensures var tail := Text.Split(TagsText(tags[1..]), ',');
      Text.Split(TagsText(tags), ',') == [tags[0]] + ([[' '] + tail[0]] + tail[1..])
  {
    var joined := TagsText(tags[1..]);
    assert TagsText(tags) == tags[0] + [','] + ([' '] + joined);
    Text.SplitAtSeparator(tags[0], [' '] + joined, ',');
    Text.SplitNoSeparator(tags[0], ',');
    assert ([' '] + joined)[1..] == joined;
  }

  /** Trimming those segments: the tag, the first segment of the rest without its space, the others. */
  lemma TrimmedShape(head: string, tail: seq<string>)
    requires |tail| >= 1
    ensures TrimAll([head] + ([[' '] + tail[0]] + tail[1..])) == [Text.Trim(head)] + TrimAll(tail)
  {
    TrimLeadingSpace(tail[0]);
    Collections.MapConcat([head], [[' '] + tail[0]] + tail[1..], Text.Trim);
    Collections.MapConcat([[' '] + tail[0]], tail[1..], Text.Trim);
    Collections.MapConcat([tail[0]], tail[1..], Text.Trim);
    assert tail == [tail[0]] + tail[1..];
  }

  /** Splitting the joined text at the commas and trimming every segment gives back the tags. */
  lemma {:induction false} TrimmedSegmentsOfText(tags: seq<string>)
    requires |tags| >= 1 && forall t :: t in tags ==> WellFormedTag(t)
    ensures TrimAll(Text.Split(TagsText(tags), ',')) == tags
  {
    assert WellFormedTag(tags[0]);
    Text.TrimOfTrimmed(tags[0]);
    if |tags| == 1 {
      Text.SplitNoSeparator(tags[0], ',');
    } else {
      SplitOfText(tags);
      TrimmedShape(tags[0], Text.Split(TagsText(tags[1..]), ','));
      TrimmedSegmentsOfText(tags[1..]);
      assert tags == [tags[0]] + tags[1..];
    }
  }

  /** Well-formed tags survive being shown in the form and submitted again, in the same order. */
  lemma ParseTagsText(tags: seq<string>)
    requires forall t :: t in tags ==> WellFormedTag(t)
    ensures ParseTags(TagsText(tags)) == tags
  {
    if tags != [] {
      TrimmedSegmentsOfText(tags);
      assert forall i :: 0 <= i < |tags| ==> NonEmpty(tags[i]) by {
        forall i | 0 <= i < |tags| ensures NonEmpty(tags[i]) { assert WellFormedTag(tags[i]); }
      }
      Collections.FilterAll(tags, NonEmpty);
    }
  }

  // ---------------------------------------------------------------------------
  // Meetings
  // ---------------------------------------------------------------------------

  /** `meetings.filter((_, i) => i !== index)`: the element at `index`, if there is one, goes. */
  function RemoveAt(meetings: seq<Meeting>, index: int): (r: seq<Meeting>)
    ensures 0 <= index < |meetings| ==> r == meetings[..index] + meetings[index + 1..]
    ensures !(0 <= index < |meetings|) ==> r == meetings
    decreases |meetings|
  {
    if meetings == [] then []
    else if index == 0 then meetings[1..]
    else
      var rest := RemoveAt(meetings[1..], index - 1);
      assert 0 <= index < |meetings| ==> meetings[1..][..index - 1] == meetings[1..index];
      [meetings[0]] + rest
  }

  /** The form's fields. `meetings` is the state array the render and the submit sort in place. */
  class FriendFormState {
    const friend: Option<Friend>
    var name: string
    var tags: string
    var notes: string
    var birthday: string
    var avatarImage: string
    var meetings: seq<Meeting>
    var newMeetingDate: string
    var newMeetingNotes: string

    /** The fields a form opens with: the edited friend's, or blanks. */
    constructor (friend: Option<Friend>)
      ensures this.friend == friend
      ensures friend.None? ==>
        && name == "" && tags == "" && notes == "" && birthday == "" && avatarImage == "" && meetings == []
      ensures friend.Some? ==>
        && name == friend.value.name && tags == TagsText(friend.value.tags) && notes == friend.value.notes
        && birthday == friend.value.birthday.GetOr("") && avatarImage == friend.value.avatarImage.GetOr("")
        && meetings == friend.value.meetings
      ensures newMeetingDate == "" && newMeetingNotes == ""
    {
      this.friend := friend;
      match friend {
        case None =>
          name, tags, notes, birthday, avatarImage, meetings := "", "", "", "", "", [];
        case Some(f) =>
          name, tags, notes := f.name, TagsText(f.tags), f.notes;
          birthday, avatarImage, meetings := f.birthday.GetOr(""), f.avatarImage.GetOr(""), f.meetings;
      }
      newMeetingDate, newMeetingNotes := "", "";
    }

    /** `addMeeting`: nothing without a date; otherwise the meeting goes at the end and both inputs clear. */
    method AddMeeting()
      modifies this
      ensures old(newMeetingDate) == "" ==>
        && meetings == old(meetings) && newMeetingDate == old(newMeetingDate)
        && newMeetingNotes == old(newMeetingNotes)
      ensures old(newMeetingDate) != "" ==>
        && meetings == old(meetings) + [Meeting(old(newMeetingDate), Some(old(newMeetingNotes)))]
        && newMeetingDate == "" && newMeetingNotes == ""
      ensures name == old(name) && tags == old(tags) && notes == old(notes)
      ensures birthday == old(birthday) && avatarImage == old(avatarImage)
    {
      if newMeetingDate == "" {
        return;
      }
      meetings := meetings + [Meeting(newMeetingDate, Some(newMeetingNotes))];
      newMeetingDate := "";
      newMeetingNotes := "";
    }

    /** `removeMeeting(index)`. */
    method RemoveMeeting(index: int)
      modifies this
      ensures meetings == RemoveAt(old(meetings), index)
      ensures name == old(name) && tags == old(tags) && notes == old(notes)
      ensures birthday == old(birthday) && avatarImage == old(avatarImage)
      ensures newMeetingDate == old(newMeetingDate) && newMeetingNotes == old(newMeetingNotes)
    {
      meetings := RemoveAt(meetings, index);
    }

    /** `meetings.sort(cmp)` on the state array itself, `le` standing for `cmp(a, b) <= 0`: a stable
        sort in place. */
    method SortMeetings(le: (Meeting, Meeting) -> bool)
      requires Collections.TotalPreorder(le)
      modifies this
      ensures Collections.SortedBy(meetings, le) && multiset(meetings) == multiset(old(meetings))
      ensures forall m :: (Collections.Filter(meetings, Collections.Tied(le, m))
        == Collections.Filter(old(meetings), Collections.Tied(le, m)))
      ensures name == old(name) && tags == old(tags) && notes == old(notes)
      ensures birthday == old(birthday) && avatarImage == old(avatarImage)
      ensures newMeetingDate == old(newMeetingDate) && newMeetingNotes == old(newMeetingNotes)
    {
      Collections.SortByStable(meetings, le);
      meetings := Collections.SortBy(meetings, le);
    }

    /** The render: the list shows the meetings latest first, sorting the state array itself. */
    method Render(timeOf: string -> int)
      modifies this
      ensures Collections.SortedBy(meetings, FriendsTypes.Later(timeOf)) && multiset(meetings) == multiset(old(meetings))
      ensures forall m :: (Collections.Filter(meetings, Collections.Tied(FriendsTypes.Later(timeOf), m))
        == Collections.Filter(old(meetings), Collections.Tied(FriendsTypes.Later(timeOf), m)))
      ensures name == old(name) && tags == old(tags) && notes == old(notes)
      ensures birthday == old(birthday) && avatarImage == old(avatarImage)
      ensures newMeetingDate == old(newMeetingDate) && newMeetingNotes == old(newMeetingNotes)
    {
      FriendsTypes.OrdersArePreorders(timeOf);
      SortMeetings(FriendsTypes.Later(timeOf));
    }

    /** Submitting the form. The name input is `required`, so with an empty name the browser does not fire
        `onSubmit`: nothing is handed on and nothing is sorted. Otherwise `handleSubmit` runs: the id only
        when editing a friend that has one, empty avatar and birthday left out, the parsed tags, and the
        meetings sorted earliest first (in place). */
    method Submit(timeOf: string -> int) returns (record: Option<FriendDraft>)
      modifies this
      ensures record.None? <==> name == ""
      ensures record.None? ==> meetings == old(meetings)
      ensures record.Some? ==> Collections.SortedBy(meetings, FriendsTypes.Earlier(timeOf))
      ensures multiset(meetings) == multiset(old(meetings))
      ensures forall m :: (Collections.Filter(meetings, Collections.Tied(FriendsTypes.Earlier(timeOf), m))
        == Collections.Filter(old(meetings), Collections.Tied(FriendsTypes.Earlier(timeOf), m)))
      ensures record.Some? ==>
        && (record.value.id.Some? <==> friend.Some? && friend.value.id != "")
        && (record.value.id.Some? ==> record.value.id.value == friend.value.id)
        && record.value.name == name && record.value.notes == notes
        && record.value.avatarImage == (if avatarImage == "" then None else Some(avatarImage))
        && record.value.birthday == (if birthday == "" then None else Some(birthday))
        && record.value.tags == ParseTags(tags)
        && record.value.meetings == meetings
      ensures name == old(name) && tags == old(tags) && notes == old(notes)
      ensures birthday == old(birthday) && avatarImage == old(avatarImage)
      ensures newMeetingDate == old(newMeetingDate) && newMeetingNotes == old(newMeetingNotes)
    {
      if name == "" {
        return None;
      }
      FriendsTypes.OrdersArePreorders(timeOf);
      SortMeetings(FriendsTypes.Earlier(timeOf));
      var id := if friend.Some? && friend.value.id != "" then Some(friend.value.id) else None;
      record := Some(FriendDraft(id, name, if avatarImage == "" then None else Some(avatarImage), ParseTags(tags),
                                 notes, if birthday == "" then None else Some(birthday), meetings));
    }
  }
}
