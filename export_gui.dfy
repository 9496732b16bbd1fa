/** The contact list and export planning of the export window
    (wechat_export_gui.py), taken out of the widget calls: the search
    filter, the grouping of contacts into four sections, the first page of
    each section and the "load more" batches after it, the label each
    contact gets, and the reduction of the message-type check boxes. */
module ExportGui {
  import opened Wrappers
  import opened Lists
  import opened Text

  /** A contact as the window reads it; a missing remark is `""` and a
      contact without a `type` attribute has some `kind` other than "star". */
  datatype Contact = Contact(wxid: string, nickname: string, remark: string, kind: string, isChatroom: bool)

  // ---------------------------------------------------------------------
  // Search filter

  /** The match test of `filter_contacts`, for an already lower-cased query. */
  predicate Matches(c: Contact, query: string) {
    || Contains(Lower(c.nickname), query)
    || (c.remark != "" && Contains(Lower(c.remark), query))
    || Contains(Lower(c.wxid), query)
  }

  /** `filtered_contacts` after `filter_contacts` with the search box
      holding `searchText`: an order-preserving subsequence of the contacts
      that keeps exactly the matching ones, each as often as it occurs. */
  function MatchingContacts(contacts: seq<Contact>, searchText: string): (r: seq<Contact>)
    ensures searchText == "" ==> r == contacts
    ensures IsSubsequence(r, contacts)
    ensures forall c :: c in r ==> Matches(c, Lower(searchText))
    ensures forall c :: c in contacts && Matches(c, Lower(searchText)) ==> multiset(r)[c] == multiset(contacts)[c]
  {
    var query := Lower(searchText);
    if query == "" then
      assert forall c :: Matches(c, query) by {
        forall c ensures Matches(c, query) { assert OccursAt(Lower(c.wxid), query, 0); }
      }
      SelfIsSubsequence(contacts);
      contacts
    else
      FilterSpec(contacts, (c: Contact) => Matches(c, query));
      Filter(contacts, (c: Contact) => Matches(c, query))
  }

  /** The search is case-insensitive: a query differing only in the case of
      its letters selects the same contacts. */
  lemma MatchingIgnoresCase(contacts: seq<Contact>, a: string, b: string)
    requires Lower(a) == Lower(b)
    ensures MatchingContacts(contacts, a) == MatchingContacts(contacts, b)
  {
  }

  // ---------------------------------------------------------------------
  // Grouping

  datatype Group = Starred | OfficialAccount | GroupChat | Friend

  /** The sections in the order `_update_contacts_list` shows them. */
  const GroupOrder: seq<Group> := [Starred, OfficialAccount, GroupChat, Friend]

  function GroupName(g: Group): string {
    match g
    case Starred => "星标联系人"
    case OfficialAccount => "公众号"
    case GroupChat => "群聊"
    case Friend => "好友"
  }

  /** The section a contact is put in: starred first, then official
      accounts (wxid starting with "gh_"), then group chats, then friends. */
  function GroupOf(c: Contact): Group {
    if c.kind == "star" then Starred
    else if HasPrefix(c.wxid, "gh_") then OfficialAccount
    else if c.isChatroom then GroupChat
    else Friend
  }

  /** `groups[GroupName(g)]` after the grouping loop. */
  function Bucket(cs: seq<Contact>, g: Group): seq<Contact> {
    Filter(cs, (c: Contact) => GroupOf(c) == g)
  }

  /** Appending one contact extends exactly the bucket of its section. */
  lemma BucketStep(a: seq<Contact>, c: Contact)
    ensures forall g :: Bucket(a + [c], g) == if GroupOf(c) == g then Bucket(a, g) + [c] else Bucket(a, g)
  {
    forall g ensures Bucket(a + [c], g) == if GroupOf(c) == g then Bucket(a, g) + [c] else Bucket(a, g) {
      FilterAppend(a, [c], (x: Contact) => GroupOf(x) == g);
      assert [c][1..] == [];
    }
  }

  /** Every contact lands in exactly one section: the four sections together
      hold each contact exactly as often as the filtered list does, and a
      section holds only contacts of its kind, in their filtered order. */
  lemma BucketsPartition(cs: seq<Contact>)
    ensures multiset(cs) == multiset(Bucket(cs, Starred)) + multiset(Bucket(cs, OfficialAccount))
                          + multiset(Bucket(cs, GroupChat)) + multiset(Bucket(cs, Friend))
    ensures |cs| == |Bucket(cs, Starred)| + |Bucket(cs, OfficialAccount)| + |Bucket(cs, GroupChat)| + |Bucket(cs, Friend)|
    ensures forall g, c :: c in Bucket(cs, g) ==> GroupOf(c) == g
    ensures forall g :: IsSubsequence(Bucket(cs, g), cs)
  {
    BucketsMultiset(cs);
    var s, o, gc, f := Bucket(cs, Starred), Bucket(cs, OfficialAccount), Bucket(cs, GroupChat), Bucket(cs, Friend);
    assert |multiset(cs)| == |multiset(s)| + |multiset(o)| + |multiset(gc)| + |multiset(f)|;
    forall g, c | c in Bucket(cs, g) ensures GroupOf(c) == g {
      BucketCount(cs, g, c);
    }
    forall g ensures IsSubsequence(Bucket(cs, g), cs) {
      FilterSubsequence(cs, (c: Contact) => GroupOf(c) == g);
    }
  }

  /** The four sections together hold each contact as often as the list. */
  lemma BucketsMultiset(cs: seq<Contact>)
    ensures multiset(cs) == multiset(Bucket(cs, Starred)) + multiset(Bucket(cs, OfficialAccount))
                          + multiset(Bucket(cs, GroupChat)) + multiset(Bucket(cs, Friend))
  {
    var s, o, gc, f := Bucket(cs, Starred), Bucket(cs, OfficialAccount), Bucket(cs, GroupChat), Bucket(cs, Friend);
    forall c ensures multiset(cs)[c] == (multiset(s) + multiset(o) + multiset(gc) + multiset(f))[c] {
      BucketCount(cs, Starred, c);
      BucketCount(cs, OfficialAccount, c);
      BucketCount(cs, GroupChat, c);
      BucketCount(cs, Friend, c);
    }
  }

  /** A section holds a contact as often as the list does when the contact
      belongs there, and never otherwise. */
  lemma BucketCount(cs: seq<Contact>, g: Group, c: Contact)
    ensures multiset(Bucket(cs, g))[c] == if GroupOf(c) == g then multiset(cs)[c] else 0
  {
    FilterCount(cs, (x: Contact) => GroupOf(x) == g, c);
  }

  // ---------------------------------------------------------------------
  // The items `_update_contacts_list` plans before creating widgets

  const MaxInitialContacts: nat := 100
  const BatchSize: nat := 50

  datatype ListItem =
    | GroupTitle(group: Group, count: nat)
    | ContactEntry(contact: Contact, position: nat)
    | LoadMoreEntry(group: Group, remaining: seq<Contact>, startIndex: nat)

  /** One contact item per contact, numbered from 0 within its section. */
  function Entries(cs: seq<Contact>): seq<ListItem> {
    seq(|cs|, i requires 0 <= i < |cs| => ContactEntry(cs[i], i))
  }

  /** The items of one section: a title with the section size, its first
      hundred contacts, and one load-more item holding the rest when there
      are more than a hundred. An empty section yields no items. */
  function GroupItems(g: Group, cs: seq<Contact>): seq<ListItem> {
    if cs == [] then []
    else
      [GroupTitle(g, |cs|)] + Entries(Take(cs, MaxInitialContacts))
      + (if |cs| > MaxInitialContacts then [LoadMoreEntry(g, cs[MaxInitialContacts..], MaxInitialContacts)] else [])
  }

  /** The items for the sections `gs`, in that order. */
  function ItemsFor(gs: seq<Group>, filtered: seq<Contact>): seq<ListItem> {
    if gs == [] then []
    else ItemsFor(gs[..|gs| - 1], filtered) + GroupItems(gs[|gs| - 1], Bucket(filtered, gs[|gs| - 1]))
  }

  /** `items_to_create` for the filtered contacts. */
  function ContactListItems(filtered: seq<Contact>): seq<ListItem> {
    ItemsFor(GroupOrder, filtered)
  }

  /** The sections are emitted in the fixed order starred, official
      accounts, group chats, friends. */
  lemma ContactListInOrder(filtered: seq<Contact>)
    ensures ContactListItems(filtered)
         == GroupItems(Starred, Bucket(filtered, Starred))
          + GroupItems(OfficialAccount, Bucket(filtered, OfficialAccount))
          + GroupItems(GroupChat, Bucket(filtered, GroupChat))
          + GroupItems(Friend, Bucket(filtered, Friend))
  {
    var g3: seq<Group> := [Starred, OfficialAccount, GroupChat];
    var g2: seq<Group> := [Starred, OfficialAccount];
    var g1: seq<Group> := [Starred];
    assert GroupOrder[..3] == g3 && g3[..2] == g2 && g2[..1] == g1 && g1[..0] == [];
    assert ItemsFor(g1, filtered) == GroupItems(Starred, Bucket(filtered, Starred));
    assert ItemsFor(g2, filtered) == ItemsFor(g1, filtered) + GroupItems(OfficialAccount, Bucket(filtered, OfficialAccount));
    assert ItemsFor(g3, filtered) == ItemsFor(g2, filtered) + GroupItems(GroupChat, Bucket(filtered, GroupChat));
    assert ItemsFor(GroupOrder, filtered) == ItemsFor(g3, filtered) + GroupItems(Friend, Bucket(filtered, Friend));
  }

  /** The contacts of the contact items, in order. */
  function EntryContacts(items: seq<ListItem>): seq<Contact> {
    if items == [] then []
    else (if items[0].ContactEntry? then [items[0].contact] else []) + EntryContacts(items[1..])
  }

  /** The number of contact items. */
  function CountEntries(items: seq<ListItem>): nat {
    |EntryContacts(items)|
  }

  /** The load-more items, in order. */
  function LoadMores(items: seq<ListItem>): seq<ListItem> {
    if items == [] then []
    else (if items[0].LoadMoreEntry? then [items[0]] else []) + LoadMores(items[1..])
  }

  lemma {:induction false} EntryContactsAppend(a: seq<ListItem>, b: seq<ListItem>)
    ensures EntryContacts(a + b) == EntryContacts(a) + EntryContacts(b)
    ensures LoadMores(a + b) == LoadMores(a) + LoadMores(b)
  {
    EntryContactsOfAppend(a, b);
    LoadMoresOfAppend(a, b);
  }

  lemma {:induction false} EntryContactsOfAppend(a: seq<ListItem>, b: seq<ListItem>)
    ensures EntryContacts(a + b) == EntryContacts(a) + EntryContacts(b)
  {
    if a == [] {
      assert a + b == b;
    } else {
      var h := if a[0].ContactEntry? then [a[0].contact] else [];
      assert (a + b)[0] == a[0];
      assert (a + b)[1..] == a[1..] + b;
      EntryContactsOfAppend(a[1..], b);
      assert EntryContacts(a + b) == h + EntryContacts(a[1..] + b);
      assert EntryContacts(a) == h + EntryContacts(a[1..]);
      assert h + (EntryContacts(a[1..]) + EntryContacts(b)) == (h + EntryContacts(a[1..])) + EntryContacts(b);
    }
  }

  lemma {:induction false} LoadMoresOfAppend(a: seq<ListItem>, b: seq<ListItem>)
    ensures LoadMores(a + b) == LoadMores(a) + LoadMores(b)
  {
    if a == [] {
      assert a + b == b;
    } else {
      var h := if a[0].LoadMoreEntry? then [a[0]] else [];
      assert (a + b)[0] == a[0];
      assert (a + b)[1..] == a[1..] + b;
      LoadMoresOfAppend(a[1..], b);
      assert LoadMores(a + b) == h + LoadMores(a[1..] + b);
      assert LoadMores(a) == h + LoadMores(a[1..]);
      assert h + (LoadMores(a[1..]) + LoadMores(b)) == (h + LoadMores(a[1..])) + LoadMores(b);
    }
  }

  lemma {:induction false} EntriesContacts(cs: seq<Contact>)
    ensures EntryContacts(Entries(cs)) == cs
    ensures LoadMores(Entries(cs)) == []
  {
    assert Entries(cs) == seq(|cs|, i requires 0 <= i < |cs| => ContactEntry(cs[i], i + 0));
    ShiftedEntries(cs, 0);
  }

  /** Entries numbered from `k` show the same contacts. */
  lemma {:induction false} ShiftedEntries(cs: seq<Contact>, k: nat)
    ensures EntryContacts(seq(|cs|, i requires 0 <= i < |cs| => ContactEntry(cs[i], i + k))) == cs
    ensures LoadMores(seq(|cs|, i requires 0 <= i < |cs| => ContactEntry(cs[i], i + k))) == []
  {
    var e := seq(|cs|, i requires 0 <= i < |cs| => ContactEntry(cs[i], i + k));
    if cs != [] {
      assert e[1..] == seq(|cs| - 1, i requires 0 <= i < |cs| - 1 => ContactEntry(cs[1..][i], i + (k + 1)));
      ShiftedEntries(cs[1..], k + 1);
    }
  }

  /** One section's items: nothing for an empty section; otherwise a title
      whose count is the section size first, then at most a hundred contact
      items showing the section's first contacts in order, and last a single
      load-more item exactly when the section has more than a hundred, which
      holds the rest; shown and held contacts together are the section. */
  lemma GroupItemsShape(g: Group, cs: seq<Contact>)
    ensures cs == [] ==> GroupItems(g, cs) == []
    ensures cs != [] ==> GroupItems(g, cs)[0] == GroupTitle(g, |cs|)
    ensures EntryContacts(GroupItems(g, cs)) == Take(cs, MaxInitialContacts)
    ensures CountEntries(GroupItems(g, cs)) <= MaxInitialContacts
    ensures |LoadMores(GroupItems(g, cs))| == if |cs| > MaxInitialContacts then 1 else 0
    ensures |cs| > MaxInitialContacts ==>
      var lm := LoadMores(GroupItems(g, cs))[0];
      lm == LoadMoreEntry(g, cs[MaxInitialContacts..], MaxInitialContacts)
      && Take(cs, MaxInitialContacts) + lm.remaining == cs
    ensures |GroupItems(g, cs)| == if cs == [] then 0
      else 1 + |Take(cs, MaxInitialContacts)| + (if |cs| > MaxInitialContacts then 1 else 0)
    ensures forall i :: 0 <= i < |Take(cs, MaxInitialContacts)| ==> GroupItems(g, cs)[1 + i] == ContactEntry(cs[i], i)
    ensures |cs| > MaxInitialContacts ==>
      GroupItems(g, cs)[|GroupItems(g, cs)| - 1] == LoadMoreEntry(g, cs[MaxInitialContacts..], MaxInitialContacts)
  {
    if cs != [] {
      GroupItemsContents(g, cs);
      GroupItemsLayout(g, cs);
    }
  }

  /** The contacts a non-empty section shows and the load-more items it
      holds. */
  lemma GroupItemsContents(g: Group, cs: seq<Contact>)
    requires cs != []
    ensures EntryContacts(GroupItems(g, cs)) == Take(cs, MaxInitialContacts)
    ensures LoadMores(GroupItems(g, cs))
      == if |cs| > MaxInitialContacts then [LoadMoreEntry(g, cs[MaxInitialContacts..], MaxInitialContacts)] else []
  {
    var title: seq<ListItem> := [GroupTitle(g, |cs|)];
    var shown := Entries(Take(cs, MaxInitialContacts));
    var tail: seq<ListItem> := if |cs| > MaxInitialContacts then [LoadMoreEntry(g, cs[MaxInitialContacts..], MaxInitialContacts)] else [];
    EntryContactsAppend(title, shown);
    EntryContactsAppend(title + shown, tail);
    EntriesContacts(Take(cs, MaxInitialContacts));
    assert EntryContacts(title) == [] && LoadMores(title) == [];
    assert EntryContacts(tail) == [];
  }

  /** Where the items of a non-empty section stand: the title, then the
      contact items at positions 1 to the number shown, then the load-more
      item last. */
  lemma GroupItemsLayout(g: Group, cs: seq<Contact>)
    requires cs != []
    ensures var items := GroupItems(g, cs);
      && |items| == 1 + |Take(cs, MaxInitialContacts)| + (if |cs| > MaxInitialContacts then 1 else 0)
      && (forall i :: 0 <= i < |Take(cs, MaxInitialContacts)| ==> items[1 + i] == ContactEntry(cs[i], i))
      && (|cs| > MaxInitialContacts ==> items[|items| - 1] == LoadMoreEntry(g, cs[MaxInitialContacts..], MaxInitialContacts))
  {
    var shown := Entries(Take(cs, MaxInitialContacts));
    var tail: seq<ListItem> := if |cs| > MaxInitialContacts then [LoadMoreEntry(g, cs[MaxInitialContacts..], MaxInitialContacts)] else [];
    var items := GroupItems(g, cs);
    assert items == [GroupTitle(g, |cs|)] + shown + tail;
    forall i | 0 <= i < |shown| ensures items[1 + i] == ContactEntry(cs[i], i) {
      assert items[1 + i] == shown[i];
    }
  }

  /** The titles of the planned items, in order. */
  function Titles(items: seq<ListItem>): seq<(Group, nat)> {
    if items == [] then []
    else (if items[0].GroupTitle? then [(items[0].group, items[0].count)] else []) + Titles(items[1..])
  }

  /** The title the non-empty sections among `gs` are expected to get. */
  function ExpectedTitles(gs: seq<Group>, filtered: seq<Contact>): seq<(Group, nat)> {
    if gs == [] then []
    else
      var g := gs[|gs| - 1];
      ExpectedTitles(gs[..|gs| - 1], filtered) + (if Bucket(filtered, g) == [] then [] else [(g, |Bucket(filtered, g)|)])
  }

  lemma {:induction false} TitlesAppend(a: seq<ListItem>, b: seq<ListItem>)
    ensures Titles(a + b) == Titles(a) + Titles(b)
  {
    if a == [] {
      assert a + b == b;
    } else {
      var h := if a[0].GroupTitle? then [(a[0].group, a[0].count)] else [];
      assert (a + b)[0] == a[0];
      assert (a + b)[1..] == a[1..] + b;
      TitlesAppend(a[1..], b);
      assert Titles(a + b) == h + Titles(a[1..] + b);
      assert Titles(a) == h + Titles(a[1..]);
      assert h + (Titles(a[1..]) + Titles(b)) == (h + Titles(a[1..])) + Titles(b);
    }
  }

  lemma {:induction false} GroupTitles(g: Group, cs: seq<Contact>)
    ensures Titles(GroupItems(g, cs)) == if cs == [] then [] else [(g, |cs|)]
  {
    if cs != [] {
      var shown := Entries(Take(cs, MaxInitialContacts));
      var tail: seq<ListItem> := if |cs| > MaxInitialContacts then [LoadMoreEntry(g, cs[MaxInitialContacts..], MaxInitialContacts)] else [];
      var title: seq<ListItem> := [GroupTitle(g, |cs|)];
      TitlesAppend(title, shown);
      TitlesAppend(title + shown, tail);
      var first := Take(cs, MaxInitialContacts);
      assert shown == seq(|first|, i requires 0 <= i < |first| => ContactEntry(first[i], i + 0));
      NoTitlesInEntries(first, 0);
      assert Titles(title) == [(g, |cs|)];
      assert Titles(tail) == [];
    }
  }

  lemma {:induction false} NoTitlesInEntries(cs: seq<Contact>, k: nat)
    ensures Titles(seq(|cs|, i requires 0 <= i < |cs| => ContactEntry(cs[i], i + k))) == []
  {
    var e := seq(|cs|, i requires 0 <= i < |cs| => ContactEntry(cs[i], i + k));
    if cs != [] {
      assert e[1..] == seq(|cs| - 1, i requires 0 <= i < |cs| - 1 => ContactEntry(cs[1..][i], i + (k + 1)));
      NoTitlesInEntries(cs[1..], k + 1);
    }
  }

  /** A title appears exactly for each non-empty section, in the fixed
      order, and carries that section's size. */
  lemma {:induction false} TitlesOfSections(gs: seq<Group>, filtered: seq<Contact>)
    ensures Titles(ItemsFor(gs, filtered)) == ExpectedTitles(gs, filtered)
  {
    if gs != [] {
      var g := gs[|gs| - 1];
      TitlesOfSections(gs[..|gs| - 1], filtered);
      TitlesAppend(ItemsFor(gs[..|gs| - 1], filtered), GroupItems(g, Bucket(filtered, g)));
      GroupTitles(g, Bucket(filtered, g));
    }
  }

  // ---------------------------------------------------------------------
  // The planning loop of `_update_contacts_list`

  /** The grouping loop of `_update_contacts_list`: appends each contact
      to the list of its section. */
  method GroupContacts(filtered: seq<Contact>) returns (groups: seq<seq<Contact>>)
    ensures |groups| == |GroupOrder|
    ensures forall k :: 0 <= k < |GroupOrder| ==> groups[k] == Bucket(filtered, GroupOrder[k])
  {
    var starred, official, chats, friends := [], [], [], [];
    var i := 0;
    while i < |filtered|
      invariant 0 <= i <= |filtered|
      invariant starred == Bucket(filtered[..i], Starred)
      invariant official == Bucket(filtered[..i], OfficialAccount)
      invariant chats == Bucket(filtered[..i], GroupChat)
      invariant friends == Bucket(filtered[..i], Friend)
    {
      var c := filtered[i];
      assert filtered[..i + 1] == filtered[..i] + [c];
      BucketStep(filtered[..i], c);
      if c.kind == "star" {
        assert GroupOf(c) == Starred;
        starred := starred + [c];
      } else if HasPrefix(c.wxid, "gh_") {
        assert GroupOf(c) == OfficialAccount;
        official := official + [c];
      } else if c.isChatroom {
        assert GroupOf(c) == GroupChat;
        chats := chats + [c];
      } else {
        assert GroupOf(c) == Friend;
        friends := friends + [c];
      }
      i := i + 1;
    }
    assert filtered[..i] == filtered;
    groups := [starred, official, chats, friends];
  }

  /** The items one section adds to `items_to_create`. */
  method SectionItems(g: Group, cs: seq<Contact>) returns (items: seq<ListItem>)
    ensures items == GroupItems(g, cs)
  {
    items := [];
    if cs != [] {
      items := [GroupTitle(g, |cs|)];
      var shown := Take(cs, MaxInitialContacts);
      var j := 0;
      while j < |shown|
        invariant 0 <= j <= |shown|
        invariant items == [GroupTitle(g, |cs|)] + Entries(shown[..j])
      {
        assert Entries(shown[..j + 1]) == Entries(shown[..j]) + [ContactEntry(shown[j], j)];
        items := items + [ContactEntry(shown[j], j)];
        j := j + 1;
      }
      assert shown[..j] == shown;
      if |cs| > MaxInitialContacts {
        items := items + [LoadMoreEntry(g, cs[MaxInitialContacts..], MaxInitialContacts)];
      }
    }
  }

  /** Groups the filtered contacts and plans the items, as the two loops of
      `_update_contacts_list` do. */
  method PlanContactItems(filtered: seq<Contact>) returns (items: seq<ListItem>)
    ensures items == ContactListItems(filtered)
  {
    var groups := GroupContacts(filtered);
    items := [];
    var k := 0;
    while k < |GroupOrder|
      invariant 0 <= k <= |GroupOrder|
      invariant items == ItemsFor(GroupOrder[..k], filtered)
    {
      var section := SectionItems(GroupOrder[k], groups[k]);
      assert GroupOrder[..k + 1][..k] == GroupOrder[..k];
      items := items + section;
      k := k + 1;
    }
    assert GroupOrder[..k] == GroupOrder;
  }

  // ---------------------------------------------------------------------
  // Widgets

  datatype Widget =
    | TitleLabel(text: string)
    | ContactRow(wxid: string, icon: string, name: string)
    | LoadMoreButton(text: string, group: Group, remaining: seq<Contact>)

  /** The name label of `_create_contact_item`: "remark (nickname)" when the
      contact has a remark, else the nickname, else 未知 ("unknown"). */
  function DisplayName(c: Contact): (r: string)
    ensures r != ""
    ensures c.remark != "" ==> r == c.remark + " (" + c.nickname + ")"
    ensures c.remark == "" && c.nickname != "" ==> r == c.nickname
    ensures c.remark == "" && c.nickname == "" ==> r == "未知"
  {
    var name := if c.nickname != "" then c.nickname else "未知";
    if c.remark != "" then c.remark + " (" + c.nickname + ")" else name
  }

  /** The placeholder avatar of `_create_contact_item`. */
  function AvatarIcon(c: Contact): string {
    if c.isChatroom then "\U{1F465}"
    else if HasPrefix(c.wxid, "gh_") then "\U{1F4E2}"
    else "\U{1F464}"
  }

  /** The placeholder avatar tests the chat-room flag before the "gh_"
      prefix, while the sections test them the other way round: group chats
      and friends get the group and person icons, and an official account
      gets the megaphone unless it is also flagged as a chat room. */
  lemma AvatarIconOfGroup(c: Contact)
    ensures GroupOf(c) == GroupChat ==> AvatarIcon(c) == "\U{1F465}"
    ensures GroupOf(c) == Friend ==> AvatarIcon(c) == "\U{1F464}"
    ensures GroupOf(c) == OfficialAccount ==> AvatarIcon(c) == if c.isChatroom then "\U{1F465}" else "\U{1F4E2}"
  {
  }

  function ContactWidget(c: Contact): Widget {
    ContactRow(c.wxid, AvatarIcon(c), DisplayName(c))
  }

  /** `f"--- {group_name} ({len(contacts)}) ---"`. */
  function TitleText(g: Group, count: nat): string {
    "--- " + GroupName(g) + " (" + Decimal(count) + ") ---"
  }

  /** `f"加载更多 {group} ({n}个)"`: "load more <section> (<n> items)". */
  function LoadMoreText(g: Group, n: nat): string {
    "加载更多 " + GroupName(g) + " (" + Decimal(n) + "个)"
  }

  /** The count in a section title reads back as the section size. */
  lemma TitleTextShowsCount(g: Group, count: nat)
    ensures var t := TitleText(g, count);
      var from := |"--- " + GroupName(g) + " ("|;
      && from + 5 <= |t|
      && (forall i :: from <= i < |t| - 5 ==> '0' <= t[i] <= '9')
      && ParseDecimal(t[from..|t| - 5]) == count
  {
    var t := TitleText(g, count);
    var from := |"--- " + GroupName(g) + " ("|;
    assert t[from..|t| - 5] == Decimal(count);
    ParseDecimalOfDecimal(count);
  }

  /** The widget created for one planned item. */
  function WidgetFor(item: ListItem): Widget {
    match item
    case GroupTitle(g, n) => TitleLabel(TitleText(g, n))
    case ContactEntry(c, _) => ContactWidget(c)
    case LoadMoreEntry(g, rest, _) => LoadMoreButton(LoadMoreText(g, |rest|), g, rest)
  }

  /** The widget loop of `_update_contacts_list`: one widget per planned
      item, in order, counting the contact rows it adds. */
  method CreateWidgets(items: seq<ListItem>) returns (widgets: seq<Widget>, totalAdded: nat)
    ensures widgets == Map(items, WidgetFor)
    ensures totalAdded == CountEntries(items)
  {
    widgets, totalAdded := [], 0;
    var i := 0;
    while i < |items|
      invariant 0 <= i <= |items|
      invariant widgets == Map(items[..i], WidgetFor)
      invariant totalAdded == CountEntries(items[..i])
    {
      MapPrefixStep(items, WidgetFor, i);
      CountEntriesStep(items, i);
      widgets := widgets + [WidgetFor(items[i])];
      if items[i].ContactEntry? {
        totalAdded := totalAdded + 1;
      }
      i := i + 1;
    }
    assert items[..i] == items;
  }

  /** One item more counts one contact more exactly when it is a contact item. */
  lemma CountEntriesStep(items: seq<ListItem>, i: nat)
    requires i < |items|
    ensures CountEntries(items[..i + 1]) == CountEntries(items[..i]) + if items[i].ContactEntry? then 1 else 0
  {
    assert items[..i + 1] == items[..i] + [items[i]];
    EntryContactsOfAppend(items[..i], [items[i]]);
    assert EntryContacts([items[i]]) == (if items[i].ContactEntry? then [items[i].contact] else []) + EntryContacts([]);
  }

  // ---------------------------------------------------------------------
  // Load more

  /** The widgets one press of a load-more button adds: rows for the next
      fifty contacts and, when more remain, a new button holding the rest,
      labelled with how many that is. */
  function LoadMoreWidgets(g: Group, remaining: seq<Contact>): (r: seq<Widget>)
    ensures |remaining| > BatchSize ==>
      (|r| == BatchSize + 1 && r[BatchSize] == LoadMoreButton(LoadMoreText(g, |remaining| - BatchSize), g, remaining[BatchSize..]))
    ensures |remaining| > BatchSize ==> r[..BatchSize] == Map(remaining[..BatchSize], ContactWidget)
    ensures |remaining| <= BatchSize ==> r == Map(remaining, ContactWidget)
  {
    Map(Take(remaining, BatchSize), ContactWidget)
    + (if |remaining| > BatchSize then [LoadMoreButton(LoadMoreText(g, |remaining| - BatchSize), g, remaining[BatchSize..])] else [])
  }

  /** `_load_more_contacts(group_name, remaining_contacts)`. */
  method LoadMoreContacts(g: Group, remaining: seq<Contact>) returns (widgets: seq<Widget>)
    ensures widgets == LoadMoreWidgets(g, remaining)
  {
    var batch := Take(remaining, BatchSize);
    widgets := [];
    var i := 0;
    while i < |batch|
      invariant 0 <= i <= |batch|
      invariant widgets == Map(batch[..i], ContactWidget)
    {
      MapPrefixStep(batch, ContactWidget, i);
      widgets := widgets + [ContactWidget(batch[i])];
      i := i + 1;
    }
    assert batch[..i] == batch;
    assert widgets == Map(batch, ContactWidget);
    if |remaining| > BatchSize {
      widgets := widgets + [LoadMoreButton(LoadMoreText(g, |remaining| - BatchSize), g, remaining[BatchSize..])];
    }
  }

  /** A button's label counts the contacts it holds. */
  lemma LoadMoreLabelCounts(g: Group, remaining: seq<Contact>)
    requires |remaining| > BatchSize
    ensures var b := LoadMoreWidgets(g, remaining)[BatchSize];
      b.LoadMoreButton? && b.text == LoadMoreText(g, |b.remaining|)
  {
  }

  /** The contact rows created by pressing the first load-more button and
      then each newly created load-more button once. The buttons these
      presses create are not part of the result. */
  function PressUntilDone(g: Group, remaining: seq<Contact>): seq<Widget>
    decreases |remaining|
  {
    var step := LoadMoreWidgets(g, remaining);
    if |remaining| > BatchSize then step[..BatchSize] + PressUntilDone(g, step[BatchSize].remaining)
    else step
  }

  /** Pressing the first load-more button and then each newly created one
      once creates rows for every contact the first button held, once each
      and in order. */
  lemma {:induction false} PressUntilDoneShowsAll(g: Group, remaining: seq<Contact>)
    ensures PressUntilDone(g, remaining) == Map(remaining, ContactWidget)
    decreases |remaining|
  {
    if |remaining| > BatchSize {
      var step := LoadMoreWidgets(g, remaining);
      PressUntilDoneShowsAll(g, remaining[BatchSize..]);
      assert step[..BatchSize] == Map(remaining[..BatchSize], ContactWidget);
      MapAppend(remaining[..BatchSize], remaining[BatchSize..], ContactWidget);
      assert remaining[..BatchSize] + remaining[BatchSize..] == remaining;
    }
  }

  /** No contact of a section is out of reach: its first page plus one press
      of the first load-more button and of each newly created one shows the
      whole section in order. */
  lemma SectionFullyReachable(g: Group, cs: seq<Contact>)
    requires |cs| > MaxInitialContacts
    ensures Map(EntryContacts(GroupItems(g, cs)), ContactWidget) + PressUntilDone(g, cs[MaxInitialContacts..])
         == Map(cs, ContactWidget)
  {
    GroupItemsShape(g, cs);
    PressUntilDoneShowsAll(g, cs[MaxInitialContacts..]);
    MapAppend(Take(cs, MaxInitialContacts), cs[MaxInitialContacts..], ContactWidget);
  }

  // ---------------------------------------------------------------------
  // The panel state

  /** The contact panel: the loaded contacts and the filtered view of them. */
  class ContactPanel {
    var contacts: seq<Contact>
    var filteredContacts: seq<Contact>

    constructor ()
      ensures contacts == [] && filteredContacts == []
    {
      contacts, filteredContacts := [], [];
    }

    /** The contact-loading step of the load thread: the loaded list is
        stored; when it is empty the load stops with a warning, leaving the
        filtered view and the drawn list as they were (`None`); otherwise
        every contact is shown and the list is redrawn. */
    method LoadContacts(loaded: seq<Contact>) returns (redrawn: Option<seq<Widget>>)
      modifies this
      ensures contacts == loaded
      ensures loaded == [] ==> filteredContacts == old(filteredContacts) && redrawn == None
      ensures loaded != [] ==> filteredContacts == loaded
      ensures loaded != [] ==> redrawn == Some(Map(ContactListItems(loaded), WidgetFor))
    {
      contacts := loaded;
      if contacts == [] {
        return None;
      }
      filteredContacts := contacts;
      var widgets, _ := UpdateContactsList();
      redrawn := Some(widgets);
    }

    /** `filter_contacts`: recomputes the filtered view and redraws the list. */
    method FilterContacts(searchText: string) returns (widgets: seq<Widget>, totalAdded: nat)
      modifies this`filteredContacts
      ensures filteredContacts == MatchingContacts(contacts, searchText)
      ensures widgets == Map(ContactListItems(filteredContacts), WidgetFor)
      ensures totalAdded == CountEntries(ContactListItems(filteredContacts))
    {
      filteredContacts := MatchingContacts(contacts, searchText);
      widgets, totalAdded := UpdateContactsList();
    }

    /** `_update_contacts_list`: nothing is drawn for an empty view. */
    method UpdateContactsList() returns (widgets: seq<Widget>, totalAdded: nat)
      ensures widgets == Map(ContactListItems(filteredContacts), WidgetFor)
      ensures totalAdded == CountEntries(ContactListItems(filteredContacts))
    {
      if filteredContacts == [] {
        assert ContactListItems(filteredContacts) == [] by { ContactListInOrder(filteredContacts); }
        return [], 0;
      }
      var items := PlanContactItems(filteredContacts);
      widgets, totalAdded := CreateWidgets(items);
    }
  }

  // ---------------------------------------------------------------------
  // Starting an export

  datatype MessageType = Text | Image | Audio | Video | LinkMessage | Emoji | File | System | Quote | MergedMessages

  datatype FileType = Html | Txt | AiTxt | Docx | Markdown | Xlsx

  /** `format_map.get(format_str, FileType.HTML)`. */
  function FileTypeOf(format: string): FileType {
    if format == "HTML" then Html
    else if format == "TXT" then Txt
    else if format == "AI_TXT" then AiTxt
    else if format == "DOCX" then Docx
    else if format == "MARKDOWN" then Markdown
    else if format == "XLSX" then Xlsx
    else Html
  }

  /** The types whose check box is ticked; the "all messages" box, keyed
      `None`, is not a type. */
  function CheckedTypes(checks: map<Option<MessageType>, bool>): set<MessageType> {
    set k | k in checks && k.Some? && checks[k] :: k.value
  }

  /** The message-type reduction of `start_export`: `None` (every type) when
      "all messages" is ticked, otherwise the set of ticked types. */
  method SelectedMessageTypes(checks: map<Option<MessageType>, bool>) returns (types: Option<set<MessageType>>)
    requires None in checks
    ensures types == if checks[None] then None else Some(CheckedTypes(checks))
  {
    var selected: set<MessageType> := {};
    var todo := checks.Keys;
    while todo != {}
      invariant todo <= checks.Keys
      invariant selected == set k | k in checks.Keys - todo && k.Some? && checks[k] :: k.value
      decreases todo
    {
      var k :| k in todo;
      if checks[k] && k.Some? {
        selected := selected + {k.value};
      }
      todo := todo - {k};
    }
    assert checks.Keys - todo == checks.Keys;
    types := if checks[None] then None else Some(selected);
  }

  datatype ExportError = NoContactSelected | NoDatabase | NoOutputDirectory

  /** What `start_export` hands to the export thread. */
  datatype ExportJob = ExportJob(wxid: string, outputDir: string, fileType: FileType,
                                 messageTypes: Option<set<MessageType>>, startTime: string, endTime: string)

  /** `start_export`: refuses without a selected contact, then without a
      loaded database, then without an output directory; otherwise starts the
      export with the chosen format (HTML when unknown), the reduced message
      types and the time range read from the window. */
  method StartExport(wxid: string, databaseLoaded: bool, outputDir: string, format: string,
                     startTime: string, endTime: string, checks: map<Option<MessageType>, bool>)
    returns (r: Result<ExportJob, ExportError>)
    requires None in checks
    ensures wxid == "" ==> r == Err(NoContactSelected)
    ensures wxid != "" && !databaseLoaded ==> r == Err(NoDatabase)
    ensures wxid != "" && databaseLoaded && outputDir == "" ==> r == Err(NoOutputDirectory)
    ensures r.Ok? <==> wxid != "" && databaseLoaded && outputDir != ""
    ensures r.Ok? ==> r.value == ExportJob(wxid, outputDir, FileTypeOf(format),
                                           if checks[None] then None else Some(CheckedTypes(checks)), startTime, endTime)
  {
    if wxid == "" {
      return Err(NoContactSelected);
    }
    if !databaseLoaded {
      return Err(NoDatabase);
    }
    if outputDir == "" {
      return Err(NoOutputDirectory);
    }
    var fileType := FileTypeOf(format);
    var types := SelectedMessageTypes(checks);
    r := Ok(ExportJob(wxid, outputDir, fileType, types, startTime, endTime));
  }
}
