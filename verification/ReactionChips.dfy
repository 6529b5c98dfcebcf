/** The chips under a message: its reactions collapsed to one chip per emoji. */
module ReactionChips {
  import opened Wrappers
  import opened MessageTable
  import R = Reactions

  datatype Chip = Chip(emoji: string, count: nat, mine: bool)

  // ---------- What a chip should say ----------

  function CountOf(rows: seq<Reaction>, emoji: string): nat {
    if rows == [] then 0
    else CountOf(rows[..|rows| - 1], emoji) + if rows[|rows| - 1].emoji == emoji then 1 else 0
  }

  predicate Mine(rows: seq<Reaction>, me: Option<User>, emoji: string) {
    me.Some? && Reaction(emoji, me.value) in rows
  }

  /** The emojis in the order of their first row. */
  function Emojis(rows: seq<Reaction>): seq<string> {
    if rows == [] then []
    else
      var before, e := Emojis(rows[..|rows| - 1]), rows[|rows| - 1].emoji;
      if e in before then before else before + [e]
  }

  function ChipOf(rows: seq<Reaction>, me: Option<User>, emoji: string): Chip {
    Chip(emoji, CountOf(rows, emoji), Mine(rows, me, emoji))
  }

  /** The emojis are those of the rows, each once, and exactly those with a count. */
  lemma {:induction false} EmojisAreTheRows(rows: seq<Reaction>, emoji: string)
    ensures emoji in Emojis(rows) <==> exists i :: 0 <= i < |rows| && rows[i].emoji == emoji
    ensures emoji in Emojis(rows) <==> CountOf(rows, emoji) > 0
    ensures forall i, j | 0 <= i < j < |Emojis(rows)| :: Emojis(rows)[i] != Emojis(rows)[j]
  {
    if rows != [] {
      EmojisAreTheRows(rows[..|rows| - 1], emoji);
      assert rows[|rows| - 1].emoji == emoji ==> emoji in Emojis(rows);
    }
  }

  /** The index of an emoji's first row; the number of rows, if it has none. */
  function FirstRow(rows: seq<Reaction>, emoji: string): nat {
    if rows == [] then 0
    else if rows[0].emoji == emoji then 0
    else 1 + FirstRow(rows[1..], emoji)
  }

  lemma {:induction false} FirstRowOfMore(rows: seq<Reaction>, r: Reaction, emoji: string)
    ensures FirstRow(rows, emoji) <= |rows|
    ensures FirstRow(rows, emoji) < |rows| <==> emoji in Emojis(rows)
    ensures FirstRow(rows + [r], emoji) ==
      if FirstRow(rows, emoji) < |rows| || r.emoji == emoji then FirstRow(rows, emoji) else |rows| + 1
  {
    EmojisAreTheRows(rows, emoji);
    if rows == [] {
      assert rows + [r] == [r];
    } else {
      assert (rows + [r])[1..] == rows[1..] + [r];
      FirstRowOfMore(rows[1..], r, emoji);
      EmojisAreTheRows(rows[1..], emoji);
      if i :| 0 <= i < |rows| && rows[i].emoji == emoji {
        assert i > 0 ==> rows[1..][i - 1].emoji == emoji;
      }
      if i :| 0 <= i < |rows[1..]| && rows[1..][i].emoji == emoji {
        assert rows[i + 1].emoji == emoji;
      }
    }
  }

  /** The chips come in the order of their emojis' first rows. */
  lemma {:induction false} EmojisInOrderOfAppearance(rows: seq<Reaction>, i: nat, j: nat)
    requires i < j < |Emojis(rows)|
    ensures FirstRow(rows, Emojis(rows)[i]) < FirstRow(rows, Emojis(rows)[j]) < |rows|
  {
    var front, last := rows[..|rows| - 1], rows[|rows| - 1];
    assert rows == front + [last];
    FirstRowOfMore(front, last, Emojis(rows)[i]);
    FirstRowOfMore(front, last, Emojis(rows)[j]);
    if j < |Emojis(front)| {
      EmojisInOrderOfAppearance(front, i, j);
    } else {
      assert Emojis(rows)[i] in Emojis(front);
    }
  }

  lemma OneRowMore(rows: seq<Reaction>, r: Reaction, me: Option<User>, emoji: string)
    ensures CountOf(rows + [r], emoji) == CountOf(rows, emoji) + if r.emoji == emoji then 1 else 0
    ensures Mine(rows + [r], me, emoji) <==> Mine(rows, me, emoji) || (r.emoji == emoji && me == Some(r.user))
    ensures Emojis(rows + [r]) == if r.emoji in Emojis(rows) then Emojis(rows) else Emojis(rows) + [r.emoji]
  {
    assert (rows + [r])[..|rows|] == rows;
  }

  lemma MineIsSeen(rows: seq<Reaction>, me: Option<User>, emoji: string)
    ensures Mine(rows, me, emoji) ==> CountOf(rows, emoji) > 0
  {
    EmojisAreTheRows(rows, emoji);
    if Mine(rows, me, emoji) {
      var i :| 0 <= i < |rows| && rows[i] == Reaction(emoji, me.value);
      assert rows[i].emoji == emoji;
    }
  }

  /** The map entry of one emoji, absent while it has no rows. */
  predicate Entered(chips: map<string, Chip>, rows: seq<Reaction>, me: Option<User>, emoji: string) {
    && (emoji in chips <==> CountOf(rows, emoji) > 0)
    && (emoji in chips ==> chips[emoji] == ChipOf(rows, me, emoji))
  }

  /** One turn of the loop: `map.set(r.emoji, cur)` with the counted `cur`. */
  function Enter(chips: map<string, Chip>, r: Reaction, me: Option<User>): map<string, Chip> {
    var cur := if r.emoji in chips then chips[r.emoji] else Chip(r.emoji, 0, false);
    chips[r.emoji := Chip(cur.emoji, cur.count + 1, cur.mine || me == Some(r.user))]
  }

  lemma RowIsEntered(chips: map<string, Chip>, rows: seq<Reaction>, r: Reaction, me: Option<User>, emoji: string)
    requires Entered(chips, rows, me, emoji)
    ensures Entered(Enter(chips, r, me), rows + [r], me, emoji)
  {
    OneRowMore(rows, r, me, emoji);
    MineIsSeen(rows, me, emoji);
  }

  /**
   `aggregate`: one chip per emoji, in order of first appearance, with the number of its rows and
   whether the current user holds it. A JavaScript Map is its entries and the order of its keys.
   */
  method Aggregate(reactions: seq<Reaction>, me: Option<User>) returns (chips: seq<Chip>)
    ensures |chips| == |Emojis(reactions)|
    ensures forall i | 0 <= i < |chips| :: chips[i] == ChipOf(reactions, me, Emojis(reactions)[i])
  {
    var keys: seq<string> := [];
    var entries: map<string, Chip> := map[];
    var n := 0;
    while n < |reactions|
      invariant 0 <= n <= |reactions|
      invariant keys == Emojis(reactions[..n])
      invariant forall emoji :: Entered(entries, reactions[..n], me, emoji)
    {
      var r := reactions[n];
      forall emoji ensures Entered(Enter(entries, r, me), reactions[..n] + [r], me, emoji) {
        RowIsEntered(entries, reactions[..n], r, me, emoji);
      }
      OneRowMore(reactions[..n], r, me, r.emoji);
      EmojisAreTheRows(reactions[..n], r.emoji);
      assert Entered(entries, reactions[..n], me, r.emoji);
      assert reactions[..n + 1] == reactions[..n] + [r];
      if r.emoji !in entries {
        keys := keys + [r.emoji];
      }
      entries := Enter(entries, r, me);
      n := n + 1;
    }
    assert reactions[..n] == reactions;
    forall i | 0 <= i < |keys| ensures keys[i] in entries && entries[keys[i]] == ChipOf(reactions, me, keys[i]) {
      EmojisAreTheRows(reactions, keys[i]);
      assert Entered(entries, reactions, me, keys[i]);
    }
    chips := seq(|keys|, i requires 0 <= i < |keys| && keys[i] in entries => entries[keys[i]]);
  }

  // ---------- What the chips add up to ----------

  function Total(rows: seq<Reaction>, emojis: seq<string>): nat {
    if emojis == [] then 0 else Total(rows, emojis[..|emojis| - 1]) + CountOf(rows, emojis[|emojis| - 1])
  }

  lemma {:induction false} OneRowMoreInTotal(rows: seq<Reaction>, r: Reaction, emojis: seq<string>)
    requires forall i, j | 0 <= i < j < |emojis| :: emojis[i] != emojis[j]
    ensures Total(rows + [r], emojis) == Total(rows, emojis) + if r.emoji in emojis then 1 else 0
  {
    if emojis != [] {
      var n := |emojis| - 1;
      OneRowMoreInTotal(rows, r, emojis[..n]);
      OneRowMore(rows, r, None, emojis[n]);
      assert r.emoji in emojis <==> r.emoji in emojis[..n] || r.emoji == emojis[n];
    }
  }

  /** The counts of the chips sum to the number of rows. */
  lemma {:induction false} CountsSumToRows(rows: seq<Reaction>)
    ensures Total(rows, Emojis(rows)) == |rows|
  {
    if rows != [] {
      var before, r := rows[..|rows| - 1], rows[|rows| - 1];
      assert rows == before + [r];
      CountsSumToRows(before);
      OneRowMore(before, r, None, r.emoji);
      EmojisAreTheRows(before, r.emoji);
      OneRowMoreInTotal(before, r, Emojis(before));
      if r.emoji !in Emojis(before) {
        assert Emojis(rows)[..|Emojis(before)|] == Emojis(before);
      }
    }
  }

  function Holders(rows: set<Reaction>, emoji: string): set<User> {
    set r | r in rows && r.emoji == emoji :: r.user
  }

  function Elements(list: seq<Reaction>): set<Reaction> {
    set r | r in list
  }

  predicate NoDuplicates(list: seq<Reaction>) {
    forall i, j | 0 <= i < j < |list| :: list[i] != list[j]
  }

  lemma OneHolderMore(rows: set<Reaction>, r: Reaction, emoji: string)
    requires r !in rows
    ensures |Holders(rows + {r}, emoji)| == |Holders(rows, emoji)| + if r.emoji == emoji then 1 else 0
  {
    forall u ensures u in Holders(rows, emoji) <==> Reaction(emoji, u) in rows {}
    forall u ensures u in Holders(rows + {r}, emoji) <==> Reaction(emoji, u) in rows + {r} {}
    if r.emoji == emoji {
      assert r == Reaction(emoji, r.user);
      assert Holders(rows + {r}, emoji) == Holders(rows, emoji) + {r.user};
    } else {
      assert Holders(rows + {r}, emoji) == Holders(rows, emoji);
    }
  }

  lemma {:induction false} CountIsHolders(list: seq<Reaction>, emoji: string)
    requires NoDuplicates(list)
    ensures CountOf(list, emoji) == |Holders(Elements(list), emoji)|
  {
    if list == [] {
      assert Holders(Elements(list), emoji) == {};
    } else {
      var before, last := list[..|list| - 1], list[|list| - 1];
      CountIsHolders(before, emoji);
      assert list == before + [last];
      assert Elements(list) == Elements(before) + {last};
      OneHolderMore(Elements(before), last, emoji);
    }
  }

  /**
   Over the rows of one message in any reachable reaction table, a chip's count is the number of
   distinct users who hold its emoji, and it is mine exactly when my row is in the table.
   */
  lemma ChipsCountPeople(table: map<nat, R.Entry>, message: R.MessageId, ids: seq<nat>, me: Option<User>, emoji: string)
    requires R.Unique(table)
    requires forall i, j | 0 <= i < j < |ids| :: ids[i] != ids[j]
    requires forall id :: id in ids <==> id in table && table[id].message == message
    ensures var list := seq(|ids|, i requires 0 <= i < |ids| =>
              assert ids[i] in ids; Reaction(table[ids[i]].emoji, table[ids[i]].user));
      && CountOf(list, emoji) == |Holders(R.ReactionsOf(table, message), emoji)|
      && (Mine(list, me, emoji) <==> me.Some? && R.Holds(table, R.Entry(message, me.value, emoji)))
  {
    assert forall i | 0 <= i < |ids| :: ids[i] in ids;
    var list := seq(|ids|, i requires 0 <= i < |ids| => Reaction(table[ids[i]].emoji, table[ids[i]].user));
    forall i, j | 0 <= i < j < |list| ensures list[i] != list[j] {
      assert ids[i] in ids && ids[j] in ids && ids[i] != ids[j];
      assert table[ids[i]] != table[ids[j]];
    }
    CountIsHolders(list, emoji);
    forall r: Reaction ensures r in list <==> r in R.ReactionsOf(table, message) {
      if r in R.ReactionsOf(table, message) {
        var id :| id in table && table[id].message == message && r == Reaction(table[id].emoji, table[id].user);
        assert id in ids;
        var i :| 0 <= i < |ids| && ids[i] == id;
        assert list[i] == r;
      }
    }
    assert Elements(list) == R.ReactionsOf(table, message);
    if me.Some? {
      R.ReactionsAreEntries(table, message, Reaction(emoji, me.value));
    }
  }
}
