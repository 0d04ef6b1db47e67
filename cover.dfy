/** The cover platform: the features a cover offers, its device class, the
    states it reports from the POSITION and open/close attributes, and the
    writes its commands send. Positions are inverted: the hub reports 100
    for closed, the host expects 0. */
module Cover {
  import opened Wrappers
  import opened Homee
  import Text

  datatype CoverFeature = OpenFeature | CloseFeature | StopFeature | SetPositionFeature

  datatype CoverDeviceClass = Garage | Shutter

  /** Profiles a cover node may have. */
  const CoverProfiles: seq<NodeProfile> := [
    ElectricMotorMeteringSwitch, ElectricMotorMeteringSwitchWithoutSlatPosition,
    GarageDoorOperator, ShutterPositionSwitch]

  /** Whether an attribute moves the cover: an editable UP_DOWN or OPEN_CLOSE. */
  predicate Moves(a: Attribute) {
    (a.attrType == UpDown || a.attrType == OpenClose) && a.editable
  }

  /** Whether an attribute positions the cover: an editable POSITION. */
  predicate Positions(a: Attribute) {
    a.attrType == Position && a.editable
  }

  /** The features get_cover_features accumulates over a list of attributes:
      open, close and stop for a moving attribute, set-position for a
      positioning one, on top of the default. */
  function CoverFeatures(attrs: seq<Attribute>, default: set<CoverFeature>): (f: set<CoverFeature>)
    ensures default <= f
    ensures OpenFeature in f <==> OpenFeature in default || exists a :: a in attrs && Moves(a)
    ensures CloseFeature in f <==> CloseFeature in default || exists a :: a in attrs && Moves(a)
    ensures StopFeature in f <==> StopFeature in default || exists a :: a in attrs && Moves(a)
    ensures SetPositionFeature in f <==> SetPositionFeature in default || exists a :: a in attrs && Positions(a)
  {
    if |attrs| == 0 then default
    else
      var front := attrs[..|attrs| - 1];
      var a := attrs[|attrs| - 1];
      assert forall x :: x in attrs <==> x in front || x == a;
      var f := CoverFeatures(front, default);
      var moved := if Moves(a) then f + {OpenFeature, CloseFeature, StopFeature} else f;
      if Positions(a) then moved + {SetPositionFeature} else moved
  }

  /** get_cover_features. */
  method GetCoverFeatures(node: Node, default: set<CoverFeature>) returns (features: set<CoverFeature>)
    ensures features == CoverFeatures(node.attributes, default)
  {
    features := default;
    for i := 0 to |node.attributes|
      invariant features == CoverFeatures(node.attributes[..i], default)
    {
      var attribute := node.attributes[i];
      assert node.attributes[..i + 1][..i] == node.attributes[..i];
      if attribute.attrType == UpDown || attribute.attrType == OpenClose {
        if attribute.editable {
          features := features + {OpenFeature};
          features := features + {CloseFeature};
          features := features + {StopFeature};
        }
      }
      if attribute.attrType == Position {
        if attribute.editable {
          features := features + {SetPositionFeature};
        }
      }
    }
    assert node.attributes[..|node.attributes|] == node.attributes;
  }

  /** get_device_class: garage for a garage door operator, shutter for a
      shutter position switch, none otherwise. */
  function GetDeviceClass(node: Node): (r: Option<CoverDeviceClass>)
    ensures r == Some(Garage) <==> node.profile == GarageDoorOperator
    ensures r == Some(Shutter) <==> node.profile == ShutterPositionSwitch
    ensures r.Some? ==> IsCoverNode(node)
  {
    if node.profile == GarageDoorOperator then Some(Garage)
    else if node.profile == ShutterPositionSwitch then Some(Shutter)
    else None
  }

  /** is_cover_node: the profile alone decides. */
  predicate IsCoverNode(node: Node) {
    node.profile in CoverProfiles
  }

  /** 100 - p: homee's POSITION is 0 when open, the host's position is 0
      when closed. */
  function Inverted(p: int): int {
    100 - p
  }

  /** A homee cover entity with what it computed when it was created. */
  datatype HomeeCover = HomeeCover(
    node: Node,
    features: set<CoverFeature>,
    deviceClass: Option<CoverDeviceClass>,
    openCloseType: AttributeType)
  {
    /** unique_id: the node id followed by "-cover". */
    function UniqueId(): string {
      Text.IntToString(node.id) + "-cover"
    }

    /** current_cover_position: the POSITION value turned around, homee
        counting from open and the host from closed. */
    function CurrentCoverPosition(): (r: Result<int, Fault>)
      ensures r.Failure? <==> !HasAttribute(node, Position)
      ensures r.Success? ==> AttributeValue(node, Position) == Success(Inverted(r.value))
    {
      match AttributeValue(node, Position)
      case Failure(e) => Failure(e)
      case Success(v) => Success(Inverted(v))
    }

    /** is_opening: the open/close attribute reads 3. */
    function IsOpening(): (r: Result<bool, Fault>)
      ensures r.Failure? <==> !HasAttribute(node, openCloseType)
      ensures r == Success(true) <==> AttributeValue(node, openCloseType) == Success(3)
    {
      match AttributeValue(node, openCloseType)
      case Failure(e) => Failure(e)
      case Success(v) => Success(v == 3)
    }

    /** is_closing: the open/close attribute reads 4. */
    function IsClosing(): (r: Result<bool, Fault>)
      ensures r.Failure? <==> !HasAttribute(node, openCloseType)
      ensures r == Success(true) <==> AttributeValue(node, openCloseType) == Success(4)
    {
      match AttributeValue(node, openCloseType)
      case Failure(e) => Failure(e)
      case Success(v) => Success(v == 4)
    }

    /** is_closed: POSITION reads 100. */
    function IsClosed(): (r: Result<bool, Fault>)
      ensures r.Failure? <==> !HasAttribute(node, Position)
      ensures r == Success(true) <==> AttributeValue(node, Position) == Success(100)
    {
      match AttributeValue(node, Position)
      case Failure(e) => Failure(e)
      case Success(v) => Success(v == 100)
    }

    /** async_open_cover: write 0 to the open/close attribute. */
    function OpenCover(): (r: Result<Write, Fault>)
      ensures r.Failure? <==> !HasAttribute(node, openCloseType)
      ensures r.Success? ==> r.value.nodeId == node.id && r.value.value == Num(0) &&
                              GetAttribute(node, openCloseType).value.id == r.value.attributeId
    {
      SetValueByType(node, openCloseType, Num(0))
    }

    /** async_close_cover: write 1 to the open/close attribute. */
    function CloseCover(): (r: Result<Write, Fault>)
      ensures r.Failure? <==> !HasAttribute(node, openCloseType)
      ensures r.Success? ==> r.value.nodeId == node.id && r.value.value == Num(1) &&
                              GetAttribute(node, openCloseType).value.id == r.value.attributeId
    {
      SetValueByType(node, openCloseType, Num(1))
    }

    /** async_stop_cover: write 2 to the open/close attribute. */
    function StopCover(): (r: Result<Write, Fault>)
      ensures r.Failure? <==> !HasAttribute(node, openCloseType)
      ensures r.Success? ==> r.value.nodeId == node.id && r.value.value == Num(2) &&
                              GetAttribute(node, openCloseType).value.id == r.value.attributeId
    {
      SetValueByType(node, openCloseType, Num(2))
    }

    /** async_set_cover_position(position): when the cover offers
        set-position, write 100 - position to POSITION; otherwise nothing.
        With no feature at all the feature mask is still the plain integer
        0, and the membership test on it raises a TypeError. */
    function SetCoverPosition(position: int): (r: Result<Option<Write>, Fault>)
      ensures r == Failure(TypeError) <==> features == {}
      ensures r == Success(None) <==> SetPositionFeature !in features && features != {}
      ensures r.Success? && r.value.Some? ==>
                SetPositionFeature in features && r.value.value.value == Num(Inverted(position)) &&
                GetAttribute(node, Position).Some? && GetAttribute(node, Position).value.id == r.value.value.attributeId
    {
      if features == {} then Failure(TypeError)
      else if SetPositionFeature !in features then Success(None)
      else match SetValueByType(node, Position, Num(Inverted(position)))
        case Failure(e) => Failure(e)
        case Success(w) => Success(Some(w))
    }
  }

  /** HomeeCover(node, entry): features, device class, and UP_DOWN as the
      open/close attribute when the node has one, OPEN_CLOSE otherwise. */
  function MakeCover(node: Node): (c: HomeeCover)
    ensures c.node == node
    ensures c.openCloseType == (if HasAttribute(node, UpDown) then UpDown else OpenClose)
    ensures OpenFeature in c.features <==> exists a :: a in node.attributes && Moves(a)
    ensures SetPositionFeature in c.features <==> exists a :: a in node.attributes && Positions(a)
  {
    HomeeCover(node, CoverFeatures(node.attributes, {}), GetDeviceClass(node),
               if HasAttribute(node, UpDown) then UpDown else OpenClose)
  }

  /** HomeeCover(node, entry). */
  method NewCover(node: Node) returns (c: HomeeCover)
    ensures c == MakeCover(node)
  {
    var features := GetCoverFeatures(node, {});
    var openCloseType := if HasAttribute(node, UpDown) then UpDown else OpenClose;
    c := HomeeCover(node, features, GetDeviceClass(node), openCloseType);
  }

  /** The cover nodes among the given ones, in their order. */
  function CoverNodes(nodes: seq<Node>): (r: seq<Node>)
    ensures |r| <= |nodes|
  {
    if |nodes| == 0 then []
    else CoverNodes(nodes[..|nodes| - 1]) + if IsCoverNode(nodes[|nodes| - 1]) then [nodes[|nodes| - 1]] else []
  }

  /** One more node is kept exactly when it is a cover node. */
  lemma CoverNodesStep(nodes: seq<Node>, i: int)
    requires 0 <= i < |nodes|
    ensures CoverNodes(nodes[..i + 1]) == CoverNodes(nodes[..i]) + if IsCoverNode(nodes[i]) then [nodes[i]] else []
  {
    assert nodes[..i + 1][..i] == nodes[..i];
  }

  /** The nodes kept are exactly the cover nodes. */
  lemma {:induction false} CoverNodesMembers(nodes: seq<Node>)
    ensures forall n :: n in CoverNodes(nodes) <==> n in nodes && IsCoverNode(n)
    decreases |nodes|
  {
    if |nodes| > 0 {
      var front := nodes[..|nodes| - 1];
      CoverNodesMembers(front);
      assert nodes == front + [nodes[|nodes| - 1]];
    }
  }

  /** async_setup_entry of the cover platform, over the imported nodes:
      one cover per cover node, in node order. */
  method SetupCovers(nodes: seq<Node>) returns (devices: seq<HomeeCover>)
    ensures |devices| == |CoverNodes(nodes)|
    ensures forall i :: 0 <= i < |devices| ==> devices[i] == MakeCover(CoverNodes(nodes)[i])
  {
    devices := [];
    for i := 0 to |nodes|
      invariant |devices| == |CoverNodes(nodes[..i])|
      invariant forall k :: 0 <= k < |devices| ==> devices[k] == MakeCover(CoverNodes(nodes[..i])[k])
    {
      var node := nodes[i];
      CoverNodesStep(nodes, i);
      if !IsCoverNode(node) {
        continue;
      }
      var cover := NewCover(node);
      devices := devices + [cover];
    }
    assert nodes[..|nodes|] == nodes;
  }

  /** Every cover node gets a cover, and every cover is made for a cover
      node. */
  lemma {:induction false} CoversOfCoverNodes(nodes: seq<Node>, devices: seq<HomeeCover>)
    requires |devices| == |CoverNodes(nodes)|
    requires forall i :: 0 <= i < |devices| ==> devices[i] == MakeCover(CoverNodes(nodes)[i])
    ensures forall n :: n in nodes && IsCoverNode(n) ==> MakeCover(n) in devices
    ensures forall c :: c in devices ==> c.node in nodes && IsCoverNode(c.node) && c == MakeCover(c.node)
  {
    var cn := CoverNodes(nodes);
    CoverNodesMembers(nodes);
    forall n | n in nodes && IsCoverNode(n)
      ensures MakeCover(n) in devices
    {
      var k :| 0 <= k < |cn| && cn[k] == n;
      assert devices[k] == MakeCover(n);
    }
    forall c | c in devices
      ensures c.node in nodes && IsCoverNode(c.node) && c == MakeCover(c.node)
    {
      var k :| 0 <= k < |devices| && devices[k] == c;
      assert cn[k] in cn;
    }
  }

  /** Setting a position and then reading it back: a cover that supports
      positioning and has a POSITION attribute issues a write, and once the
      hub applies it the cover reports the position that was set. */
  lemma PositionRoundTrip(cover: HomeeCover, position: int)
    requires SetPositionFeature in cover.features && HasAttribute(cover.node, Position)
    ensures cover.SetCoverPosition(position).Success? && cover.SetCoverPosition(position).value.Some?
    ensures var w := cover.SetCoverPosition(position).value.value;
            w.value.Num? && cover.(node := ApplyWrite(cover.node, w)).CurrentCoverPosition() == Success(position)
  {
    ReadBackAfterWrite(cover.node, Position, Inverted(position));
    PositionWrite(cover, position);
    var w := Write(cover.node.id, GetAttribute(cover.node, Position).value.id, Num(Inverted(position)));
    ReadBackMoves(cover, ApplyWrite(cover.node, w), Inverted(position));
    assert Inverted(Inverted(position)) == position;
  }

  /** The write set_cover_position issues when it issues one. */
  lemma PositionWrite(cover: HomeeCover, position: int)
    requires SetPositionFeature in cover.features && HasAttribute(cover.node, Position)
    ensures GetAttribute(cover.node, Position).Some?
    ensures cover.SetCoverPosition(position) ==
            Success(Some(Write(cover.node.id, GetAttribute(cover.node, Position).value.id, Num(Inverted(position)))))
  {
  }

  /** A cover whose POSITION attribute reads x reports position Inverted(x). */
  lemma ReadBackMoves(cover: HomeeCover, node: Node, x: int)
    requires AttributeValue(node, Position) == Success(x)
    ensures cover.(node := node).CurrentCoverPosition() == Success(Inverted(x))
  {
  }

  /** A cover is closed exactly when it reports position 0. */
  lemma ClosedIffPositionZero(cover: HomeeCover)
    ensures cover.IsClosed() == Success(true) <==> cover.CurrentCoverPosition() == Success(0)
  {
  }

  /** The open, close and stop commands all address the same attribute:
      UP_DOWN when the node has one, otherwise OPEN_CLOSE; they fail only
      when the node has neither. */
  lemma CommandsTarget(node: Node)
    ensures var c := MakeCover(node);
            && (c.OpenCover().Failure? <==> !HasAttribute(node, UpDown) && !HasAttribute(node, OpenClose))
            && (c.OpenCover().Success? ==>
                  c.CloseCover().Success? && c.StopCover().Success? &&
                  c.OpenCover().value.attributeId == c.CloseCover().value.attributeId == c.StopCover().value.attributeId &&
                  c.OpenCover().value.attributeId == GetAttribute(node, c.openCloseType).value.id)
  {
  }

  /** Covers of nodes with distinct non-negative ids have distinct unique ids. */
  lemma UniqueIdsDistinct(c1: HomeeCover, c2: HomeeCover)
    requires 0 <= c1.node.id && 0 <= c2.node.id && c1.node.id != c2.node.id
    ensures c1.UniqueId() != c2.UniqueId()
  {
    Text.NatToStringDistinct(c1.node.id, c2.node.id);
    Text.AppendDistinct(Text.NatToString(c1.node.id), Text.NatToString(c2.node.id), "-cover");
  }
}
