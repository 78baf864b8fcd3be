/** The friends list of apps/friends-app/FriendsApp.tsx: the in-memory `friends` state, its app-scoped
    `friends` entry, add/edit/delete, the tag list, the search filter and the tag toggle. */
module FriendsApp {
  import opened Wrappers
  import opened FriendsTypes
  import Text
  import Collections

  /** `friends.flatMap(f => f.tags)`. */
  function AllTagOccurrences(friends: seq<Friend>): (tags: seq<string>)
    ensures forall t :: t in tags <==> exists f :: f in friends && t in f.tags
  {
    if friends == [] then []
    else
      var rest := AllTagOccurrences(friends[1..]);
      assert forall f :: f in friends <==> f == friends[0] || f in friends[1..];
      friends[0].tags + rest
  }

  /** `allTags`: every tag any friend carries, once each, in ascending order. */
  function AllTags(friends: seq<Friend>): (tags: seq<string>)
    ensures forall t :: t in tags <==> exists f :: f in friends && t in f.tags
    ensures Collections.Distinct(tags)
    ensures Collections.SortedBy(tags, Text.StrLe)
  {
    var unique := Collections.Dedup(AllTagOccurrences(friends));
    StrLeIsPreorder();
    var sorted := Collections.SortBy(unique, Text.StrLe);
    SameElements(sorted, unique);
    sorted
  }

  lemma SameElements(sorted: seq<string>, unique: seq<string>)
    requires multiset(sorted) == multiset(unique) && Collections.Distinct(unique)
    ensures Collections.Distinct(sorted)
    ensures forall t :: t in sorted <==> t in unique
  {
    Collections.DistinctPermutation(sorted, unique);
    assert forall t :: t in sorted <==> t in multiset(unique);
  }

  /** The tag list is strictly ascending. */
  lemma AllTagsStrictlyAscending(friends: seq<Friend>, i: int, j: int)
    requires 0 <= i < j < |AllTags(friends)|
    ensures Text.StrLe(AllTags(friends)[i], AllTags(friends)[j]) && AllTags(friends)[i] != AllTags(friends)[j]
  {
  }

  lemma StrLeIsPreorder()
    ensures Collections.TotalPreorder(Text.StrLe)
  {
    forall a: string, b: string ensures Text.StrLe(a, b) || Text.StrLe(b, a) {
      Text.StrLeTotal(a, b);
    }
    forall a: string, b: string, c: string | Text.StrLe(a, b) && Text.StrLe(b, c) ensures Text.StrLe(a, c) {
      Text.StrLeTransitive(a, b, c);
    }
  }

  /** The search and tag filter: the lower-cased query occurs in the lower-cased name, and every selected
      tag is one of the friend's. */
  predicate Matches(f: Friend, searchQuery: string, selectedTags: seq<string>)
  {
    && Text.Includes(Text.Lower(f.name), Text.Lower(searchQuery))
    && (|selectedTags| == 0 || forall t :: t in selectedTags ==> t in f.tags)
  }

  /** `filteredFriends`: the friends that match, in their stored order. */
  function FilteredFriends(friends: seq<Friend>, searchQuery: string, selectedTags: seq<string>)
    : (r: seq<Friend>)
    ensures forall f :: f in r <==>
      && f in friends
      && (exists i :: Text.OccursAt(Text.Lower(f.name), Text.Lower(searchQuery), i))
      && (forall t :: t in selectedTags ==> t in f.tags)
    ensures Collections.Subsequence(r, friends)
  {
    forall f: Friend {
      Text.IncludesAt(Text.Lower(f.name), Text.Lower(searchQuery));
    }
    Collections.Filter(friends, f => Matches(f, searchQuery, selectedTags))
  }

  /** With an empty query and no selected tag, every friend is shown. */
  lemma EmptySearchShowsAll(friends: seq<Friend>)
    ensures FilteredFriends(friends, "", []) == friends
  {
    forall f: Friend ensures Matches(f, "", []) {
      assert Text.OccursAt(Text.Lower(f.name), Text.Lower(""), 0);
      Text.IncludesAt(Text.Lower(f.name), Text.Lower(""));
    }
    Collections.FilterAll(friends, f => Matches(f, "", []));
  }

  /** `toggleTag`: the tag leaves the selection when present, and joins it at the end otherwise. */
  function ToggleTag(selectedTags: seq<string>, tag: string): (r: seq<string>)
    ensures tag in r <==> tag !in selectedTags
    ensures forall t :: t != tag ==> (t in r <==> t in selectedTags)
    ensures tag !in selectedTags ==> r == selectedTags + [tag]
  {
    Collections.Toggle(selectedTags, tag)
  }

  /** Toggling a tag twice restores the selection, as a set. */
  lemma ToggleTagTwice(selectedTags: seq<string>, tag: string)
    ensures forall t :: t in ToggleTag(ToggleTag(selectedTags, tag), tag) <==> t in selectedTags
  {
  }

  function NewFriend(d: FriendDraft, now: nat): (f: Friend)
    ensures f.id == Text.DecimalString(now)
    ensures f.name == d.name && f.avatarImage == d.avatarImage && f.tags == d.tags && f.notes == d.notes
    ensures f.birthday == d.birthday && f.meetings == d.meetings
  {
    Friend(Text.DecimalString(now), d.name, d.avatarImage, d.tags, d.notes, d.birthday, d.meetings)
  }

  function Edited(d: FriendDraft, id: string): Friend
  {
    Friend(id, d.name, d.avatarImage, d.tags, d.notes, d.birthday, d.meetings)
  }

  predicate IdMatches(f: Friend, id: Option<string>)
  {
    id.Some? && f.id == id.value
  }

  /** The friends app's state: the list shown and the app's stored `friends` entry. */
  class Friends {
    var friends: seq<Friend>
    var stored: Stored<seq<Friend>>

    constructor (stored: Stored<seq<Friend>>)
      ensures friends == [] && this.stored == stored
    {
      friends := [];
      this.stored := stored;
    }

    /** `loadFriends`: a decoded entry replaces the list; a missing or unparseable one leaves it. */
    method Load()
      modifies this
      ensures stored == old(stored)
      ensures old(stored).Decoded? ==> friends == old(stored).value
      ensures !old(stored).Decoded? ==> friends == old(friends)
    {
      if stored.Decoded? {
        friends := stored.value;
      }
    }

    /** `saveFriends`: the state and the stored entry both take the new list. */
    method Save(updated: seq<Friend>)
      modifies this
      ensures friends == updated && stored == Decoded(updated)
    {
      friends := updated;
      stored := Decoded(updated);
    }

    /** `handleAddFriend`: one new friend at the end, the others as they were. */
    method Add(d: FriendDraft, now: nat)
      modifies this
      ensures friends == old(friends) + [NewFriend(d, now)]
      ensures stored == Decoded(friends)
    {
      Save(friends + [NewFriend(d, now)]);
    }

    /** `handleEditFriend`: every friend with the draft's id is replaced by it; the rest stay in place. */
    method Edit(d: FriendDraft)
      modifies this
      ensures |friends| == |old(friends)|
      ensures forall i :: 0 <= i < |friends| ==>
        friends[i] == if IdMatches(old(friends)[i], d.id) then Edited(d, d.id.value) else old(friends)[i]
      ensures d.id.None? ==> friends == old(friends)
      ensures stored == Decoded(friends)
    {
      var replacement := Edited(d, d.id.GetOr(""));
      var updated := Collections.UpdateWhere(friends, f => IdMatches(f, d.id), _ => replacement);
      if d.id.None? {
        Collections.UpdateWhereNone(friends, f => IdMatches(f, d.id), _ => replacement);
      }
      Save(updated);
    }

    /** `handleDeleteFriend`: the friends with the id go, the rest keep their order. */
    method Delete(id: string)
      modifies this
      ensures friends == Collections.Filter(old(friends), (f: Friend) => f.id != id)
      ensures forall f :: f in friends <==> f in old(friends) && f.id != id
      ensures Collections.Subsequence(friends, old(friends))
      ensures stored == Decoded(friends)
    {
      Save(Collections.Filter(friends, (f: Friend) => f.id != id));
    }
  }

  /** A list saved by one mount of the app is the list the next mount loads. */
  method SaveThenReload(items: seq<Friend>, previous: Stored<seq<Friend>>) returns (loaded: seq<Friend>)
    ensures loaded == items
  {
    var first := new Friends(previous);
    first.Load();
    first.Save(items);
    var second := new Friends(first.stored);
    second.Load();
    loaded := second.friends;
  }
}
