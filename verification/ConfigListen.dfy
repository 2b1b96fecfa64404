/** The integration's edits of the WebGUI's listen list, in each of its three shapes. */
module ConfigListen {
  import opened Options
  import opened ConfigSpec
  import Text

  /** What an interface key is: an XML name, so not blank, and without spaces and commas. */
  predicate IsKey(key: string) {
    key != "" && ',' !in key && forall i :: 0 <= i < |key| ==> !Text.IsSpace(key[i])
  }

  /** The node has children and text together, every child is the key, and the text names the key
      too: with the children gone, the text counts. */
  predicate Resurfaces(node: Listen, key: string) {
    node.items != [] && DropItems(node.items, key) == [] && key in NodeValues(Listen(node.text, []))
  }

  // ---------- Values ----------

  /** Values as they come out of comma-separated text. */
  predicate Clean(value: string) {
    value != "" && ',' !in value && Text.Trimmed(value)
  }

  ghost predicate AllClean(values: seq<string>) {
    forall i :: 0 <= i < |values| ==> Clean(values[i])
  }

  lemma {:induction false} FilledHas(values: seq<string>, key: string)
    requires key != ""
    ensures key in Filled(values) <==> key in values
  {
    if values != [] {
      FilledHas(values[1..], key);
    }
  }

  lemma {:induction false} FilledClean(values: seq<string>)
    requires AllClean(values)
    ensures Filled(values) == values
  {
    if values != [] {
      FilledClean(values[1..]);
    }
  }

  lemma {:induction false} FilledAppend(values: seq<string>, more: seq<string>)
    ensures Filled(values + more) == Filled(values) + Filled(more)
  {
    if values == [] {
      assert values + more == more;
    } else {
      FilledAppend(values[1..], more);
      assert (values + more)[1..] == values[1..] + more;
      Associates([values[0]], Filled(values[1..]), Filled(more));
    }
  }

  lemma {:induction false} FilledKeeps(values: seq<string>)
    requires forall i :: 0 <= i < |values| ==> values[i] == "" || Clean(values[i])
    ensures AllClean(Filled(values))
  {
    if values != [] {
      FilledKeeps(values[1..]);
    }
  }

  lemma StripAllClean(values: seq<string>)
    requires AllClean(values)
    ensures StripAll(values) == values
  {
    forall i | 0 <= i < |values| ensures Text.Strip(values[i]) == values[i] {
      Text.StripOfTrimmed(values[i]);
    }
  }

  lemma TextValuesClean(node: Listen)
    requires node.items == []
    ensures AllClean(NodeValues(node))
  {
    var parts := Text.Split(node.text, ',');
    Text.SplitHasNoSep(node.text, ',');
    forall i | 0 <= i < |parts| ensures StripAll(parts)[i] == "" || Clean(StripAll(parts)[i]) {
      Text.StripTrims(parts[i]);
    }
    FilledKeeps(StripAll(parts));
  }

  /** Clean values survive being written as comma-separated text and read back. */
  lemma JoinedValues(values: seq<string>)
    requires values != [] && AllClean(values)
    ensures NodeValues(Listen(Text.Join(values, ','), [])) == values
  {
    Text.SplitJoin(values, ',');
    StripAllClean(values);
    FilledClean(values);
  }

  lemma {:induction false} ListenAppend(nodes: seq<Listen>, node: Listen)
    ensures ListenValues(nodes + [node]) == ListenValues(nodes) + NodeValues(node)
  {
    if nodes == [] {
      assert nodes + [node] == [node];
    } else {
      ListenAppend(nodes[1..], node);
      assert (nodes + [node])[1..] == nodes[1..] + [node];
      Associates(NodeValues(nodes[0]), ListenValues(nodes[1..]), NodeValues(node));
    }
  }

  lemma Associates(a: seq<string>, b: seq<string>, c: seq<string>)
    ensures a + (b + c) == (a + b) + c
  {
  }

  lemma {:induction false} StripAllAppend(values: seq<string>, value: string)
    ensures StripAll(values + [value]) == StripAll(values) + [Text.Strip(value)]
  {
    if values == [] {
      assert values + [value] == [value];
    } else {
      StripAllAppend(values[1..], value);
      assert (values + [value])[1..] == values[1..] + [value];
    }
  }

  lemma KeyIsClean(key: string)
    requires IsKey(key)
    ensures Clean(key) && Text.Strip(key) == key && NodeValues(Listen(key, [])) == [key]
  {
    Text.StripOfTrimmed(key);
    assert AllClean([key]);
    JoinedValues([key]);
  }

  lemma ItemAppend(node: Listen, key: string)
    requires node.items != [] && IsKey(key)
    ensures NodeValues(node.(items := node.items + [key])) == NodeValues(node) + [key]
  {
    KeyIsClean(key);
    StripAllAppend(node.items, key);
    FilledAppend(StripAll(node.items), [key]);
    assert AllClean([key]);
    FilledClean([key]);
  }

  // ---------- Adding ----------

  lemma ItemAdded(nodes: seq<Listen>, key: string)
    requires nodes != [] && nodes[0].items != [] && IsKey(key)
    ensures ListenValues(nodes[0 := nodes[0].(items := nodes[0].items + [key])]) == NodeValues(nodes[0]) + [key] + ListenValues(nodes[1..])
  {
    ItemAppend(nodes[0], key);
    assert nodes[0 := nodes[0].(items := nodes[0].items + [key])][1..] == nodes[1..];
  }

  /** Where the key lands among the values. */
  lemma AddedAt(nodes: seq<Listen>, key: string) returns (n: nat)
    requires IsKey(key) && ListenValues(nodes) != [] && key !in ListenValues(nodes)
    ensures n <= |ListenValues(nodes)|
    ensures ListenValues(AddListen(nodes, key)) == ListenValues(nodes)[..n] + [key] + ListenValues(nodes)[n..]
  {
    var values := ListenValues(nodes);
    n := |values|;
    assert values[..n] + [key] + values[n..] == values + [key];
    KeyIsClean(key);
    if nodes[0].items != [] {
      ItemAdded(nodes, key);
      n := |NodeValues(nodes[0])|;
    } else if |nodes| == 1 && ',' in nodes[0].text {
      JoinIsListened(nodes[0], key);
    } else {
      ListenAppend(nodes, Listen(key, []));
    }
  }

  /** After the edit the WebGUI listens on the key, and on everything it listened on before;
      a WebGUI without a listen list is left to listen everywhere. */
  lemma Added(nodes: seq<Listen>, key: string)
    requires IsKey(key)
    ensures multiset(ListenValues(AddListen(nodes, key))) == multiset(ListenValues(nodes))
      + if ListenValues(nodes) == [] || key in ListenValues(nodes) then multiset{} else multiset{key}
  {
    var values := ListenValues(nodes);
    if values != [] && key !in values {
      var n := AddedAt(nodes, key);
      assert values == values[..n] + values[n..];
    }
  }

  lemma OneNode(node: Listen)
    ensures ListenValues([node]) == NodeValues(node)
  {
    assert ListenValues([node]) == NodeValues(node) + ListenValues([]);
  }

  lemma JoinIsListened(node: Listen, key: string)
    requires node.items == [] && IsKey(key)
    ensures AllClean(ListenValues([node]))
    ensures ListenValues([node.(text := Text.Join(ListenValues([node]) + [key], ','))]) == ListenValues([node]) + [key]
  {
    var values := ListenValues([node]);
    OneNode(node);
    TextValuesClean(node);
    KeyIsClean(key);
    JoinedValues(values + [key]);
    OneNode(node.(text := Text.Join(values + [key], ',')));
  }

  lemma AddTwice(nodes: seq<Listen>, key: string)
    requires IsKey(key)
    ensures AddListen(AddListen(nodes, key), key) == AddListen(nodes, key)
  {
    var values := ListenValues(nodes);
    if values != [] && key !in values {
      Added(nodes, key);
      assert key in multiset(ListenValues(AddListen(nodes, key)));
    }
  }

  // ---------- Removing ----------

  lemma {:induction false} DropAbsent(items: seq<string>, key: string)
    requires key !in StripAll(items)
    ensures DropItems(items, key) == items
  {
    if items != [] {
      assert StripAll(items)[0] != key;
      DropAbsent(items[1..], key);
    }
  }

  lemma {:induction false} DropLast(items: seq<string>, key: string)
    requires Text.Strip(key) == key
    ensures DropItems(items + [key], key) == DropItems(items, key)
  {
    if items == [] {
      assert items + [key] == [key];
    } else {
      DropLast(items[1..], key);
      assert (items + [key])[1..] == items[1..] + [key];
    }
  }

  lemma {:induction false} WithoutAbsent(values: seq<string>, key: string)
    requires key !in values
    ensures Without(values, key) == values && Without(values + [key], key) == values
  {
    if values == [] {
      assert values + [key] == [key];
    } else {
      WithoutAbsent(values[1..], key);
      assert (values + [key])[1..] == values[1..] + [key];
    }
  }

  lemma NodeWithout(node: Listen, key: string)
    requires key != "" && key !in NodeValues(node)
    ensures RemoveFromNode(node, key) == Some(node)
  {
    if node.items != [] {
      FilledHas(StripAll(node.items), key);
      DropAbsent(node.items, key);
    }
  }

  lemma {:induction false} RemoveAbsent(nodes: seq<Listen>, key: string)
    requires key != "" && key !in ListenValues(nodes)
    ensures RemoveListen(nodes, key) == nodes
  {
    if nodes != [] {
      assert ListenValues(nodes) == NodeValues(nodes[0]) + ListenValues(nodes[1..]);
      NodeWithout(nodes[0], key);
      RemoveAbsent(nodes[1..], key);
    }
  }

  lemma {:induction false} RemoveAppended(nodes: seq<Listen>, node: Listen, key: string)
    requires RemoveFromNode(node, key) == None
    ensures RemoveListen(nodes + [node], key) == RemoveListen(nodes, key)
  {
    if nodes == [] {
      assert nodes + [node] == [node];
    } else {
      RemoveAppended(nodes[1..], node, key);
      assert (nodes + [node])[1..] == nodes[1..] + [node];
    }
  }

  /** One node of comma-separated text; it is rewritten, everything else comes back as it was. */
  predicate IsOneText(nodes: seq<Listen>) {
    |nodes| == 1 && nodes[0].items == [] && ',' in nodes[0].text
  }

  /** Removing an added key gives the listen values back, and the nodes themselves unless the list
      is one comma-separated text. */
  lemma RemoveUndoesAdd(nodes: seq<Listen>, key: string)
    requires IsKey(key) && key !in ListenValues(nodes)
    ensures ListenValues(RemoveListen(AddListen(nodes, key), key)) == ListenValues(nodes)
    ensures !IsOneText(nodes) ==> RemoveListen(AddListen(nodes, key), key) == nodes
  {
    KeyIsClean(key);
    RemoveAbsent(nodes, key);
    if ListenValues(nodes) != [] {
      if nodes[0].items != [] {
        UndoItem(nodes, key);
      } else if |nodes| == 1 && ',' in nodes[0].text {
        UndoText(nodes[0], key);
      } else {
        var node := Listen(key, []);
        assert Without([key], key) == [];
        RemoveAppended(nodes, node, key);
      }
    }
  }

  lemma UndoItem(nodes: seq<Listen>, key: string)
    requires nodes != [] && nodes[0].items != [] && IsKey(key) && key !in ListenValues(nodes)
    ensures RemoveListen(nodes[0 := nodes[0].(items := nodes[0].items + [key])], key) == nodes
  {
    var more := nodes[0 := nodes[0].(items := nodes[0].items + [key])];
    KeyIsClean(key);
    RemoveAbsent(nodes[1..], key);
    NodeWithout(nodes[0], key);
    FilledHas(StripAll(nodes[0].items), key);
    DropAbsent(nodes[0].items, key);
    DropLast(nodes[0].items, key);
    assert more[1..] == nodes[1..];
    assert RemoveFromNode(more[0], key) == Some(nodes[0]);
  }

  lemma UndoText(node: Listen, key: string)
    requires node.items == [] && IsKey(key) && ListenValues([node]) != [] && key !in ListenValues([node])
    ensures var joined := node.(text := Text.Join(ListenValues([node]) + [key], ','));
      ListenValues(RemoveListen([joined], key)) == ListenValues([node])
  {
    var values := ListenValues([node]);
    var joined := node.(text := Text.Join(values + [key], ','));
    var back := node.(text := Text.Join(values, ','));
    JoinIsListened(node, key);
    WithoutAbsent(values, key);
    JoinedValues(values);
    OneNode(joined);
    OneNode(back);
    assert key in NodeValues(joined) by { assert (values + [key])[|values|] == key; }
    assert RemoveFromNode(joined, key) == Some(back);
    assert RemoveListen([joined], key) == [back] + RemoveListen([], key) == [back];
  }

  lemma {:induction false} DropsItems(items: seq<string>, key: string)
    ensures key !in StripAll(DropItems(items, key))
  {
    if items != [] {
      DropsItems(items[1..], key);
    }
  }

  lemma {:induction false} WithoutHasNot(values: seq<string>, key: string)
    requires AllClean(values)
    ensures key !in Without(values, key) && AllClean(Without(values, key))
  {
    if values != [] {
      WithoutHasNot(values[1..], key);
    }
  }

  lemma BlankHasNoValues(text: string)
    requires Text.Strip(text) == ""
    ensures NodeValues(Listen(text, [])) == []
  {
    Text.StripToNothing(text);
    assert ',' !in text;
    Text.SplitFirstPart(text, ',', []);
    assert StripAll([text]) == [""];
    assert Filled([""]) == [];
  }

  lemma NodeRemoved(node: Listen, key: string)
    requires IsKey(key)
    ensures var r := RemoveFromNode(node, key); Resurfaces(node, key) <==> r.Some? && key in NodeValues(r.value)
  {
    if node.items != [] {
      var left := DropItems(node.items, key);
      if left != [] {
        DropsItems(node.items, key);
        FilledHas(StripAll(left), key);
      } else if Text.Strip(node.text) == "" {
        BlankHasNoValues(node.text);
      } else {
        assert node.(items := []) == Listen(node.text, []);
      }
    } else {
      TextValuesClean(node);
      WithoutHasNot(NodeValues(node), key);
      var values := Without(NodeValues(node), key);
      if key in NodeValues(node) && values != [] {
        JoinedValues(values);
        assert node.(text := Text.Join(values, ',')) == Listen(Text.Join(values, ','), []);
      }
    }
  }

  /** After the removal the WebGUI listens on the key if and only if some node brings it back. */
  lemma {:induction false} Removed(nodes: seq<Listen>, key: string)
    requires IsKey(key)
    ensures key in ListenValues(RemoveListen(nodes, key)) <==> exists i :: 0 <= i < |nodes| && Resurfaces(nodes[i], key)
  {
    if nodes != [] {
      NodeRemoved(nodes[0], key);
      Removed(nodes[1..], key);
      var r, rest := RemoveFromNode(nodes[0], key), RemoveListen(nodes[1..], key);
      if r.Some? {
        assert RemoveListen(nodes, key) == [r.value] + rest;
        assert ([r.value] + rest)[1..] == rest;
      }
      assert forall i :: 1 <= i < |nodes| ==> nodes[i] == nodes[1..][i-1];
      assert (exists i :: 0 <= i < |nodes[1..]| && Resurfaces(nodes[1..][i], key)) ==> exists i :: 1 <= i < |nodes| && Resurfaces(nodes[i], key) by {
        if i :| 0 <= i < |nodes[1..]| && Resurfaces(nodes[1..][i], key) {
          assert Resurfaces(nodes[i+1], key);
        }
      }
    }
  }

  /** Cleanup after an integration gives the listen values back when the key was not among them;
      and only then, unless some node brings the key back. */
  lemma CleanupRestoresListening(nodes: seq<Listen>, key: string)
    requires IsKey(key)
    ensures key !in ListenValues(nodes) ==> ListenValues(RemoveListen(AddListen(nodes, key), key)) == ListenValues(nodes)
    ensures ListenValues(RemoveListen(AddListen(nodes, key), key)) == ListenValues(nodes) ==>
      key !in ListenValues(nodes) || exists i :: 0 <= i < |nodes| && Resurfaces(nodes[i], key)
  {
    if key in ListenValues(nodes) {
      Removed(nodes, key);
    } else {
      RemoveUndoesAdd(nodes, key);
    }
  }

  /** The key joins in the shape that the list has: as another child, in the one text with commas, or as a
      node of its own; everything else about the nodes stays. */
  lemma AddedInItsShape(nodes: seq<Listen>, key: string)
    requires ListenValues(nodes) != [] && key !in ListenValues(nodes)
    ensures nodes != []
    ensures var r := AddListen(nodes, key);
      if nodes[0].items != [] then
        |r| == |nodes| && r[0].items == nodes[0].items + [key] && r[0].text == nodes[0].text && forall i :: 1 <= i < |r| ==> r[i] == nodes[i]
      else if |nodes| == 1 && ',' in nodes[0].text then
        |r| == 1 && r[0].items == [] && r[0].text == Text.Join(ListenValues(nodes), ',') + "," + key
      else
        |r| == |nodes| + 1 && r[..|nodes|] == nodes && r[|nodes|].text == key && r[|nodes|].items == []
  {
    if nodes[0].items == [] && |nodes| == 1 && ',' in nodes[0].text {
      JoinOneMore(ListenValues(nodes), key);
    }
  }

  lemma {:induction false} JoinOneMore(values: seq<string>, key: string)
    requires values != []
    ensures Text.Join(values + [key], ',') == Text.Join(values, ',') + "," + key
  {
    if |values| == 1 {
      assert (values + [key])[1..] == [key];
    } else {
      JoinOneMore(values[1..], key);
      assert (values + [key])[1..] == values[1..] + [key];
    }
  }
}
