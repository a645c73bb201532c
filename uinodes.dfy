/**
 * The builder's registry of node kinds: for each node type its label, sidebar category,
 * icon class and the canvas and property components that render it, the registry keyed by
 * type, the grouping of the list by category, and the canvas key of a type. The Vue
 * components are opaque tokens.
 */
module UiNodes {
  import opened Wrappers

  /** `NodeCategory`. */
  datatype NodeCategory = Actions | Logic | Tools | Tabs | Page

  /**
   * The node types the list registers. Each is spelt in the editor's flow format as
   * `TypeName` gives.
   */
  datatype NodeType =
    | Navigate | Click | Dblclick | Fill | Key | Wait
    | Assert | Delay | If | Foreach | While | Http
    | Extract | Screenshot | TriggerEvent | SetAttribute | LoopElements | SwitchFrame
    | HandleDownload | Script | OpenTab | SwitchTab | CloseTab

  /** The string a node type stands for. */
  function TypeName(t: NodeType): string {
    match t
    case Navigate => "navigate"
    case Click => "click"
    case Dblclick => "dblclick"
    case Fill => "fill"
    case Key => "key"
    case Wait => "wait"
    case Assert => "assert"
    case Delay => "delay"
    case If => "if"
    case Foreach => "foreach"
    case While => "while"
    case Http => "http"
    case Extract => "extract"
    case Screenshot => "screenshot"
    case TriggerEvent => "triggerEvent"
    case SetAttribute => "setAttribute"
    case LoopElements => "loopElements"
    case SwitchFrame => "switchFrame"
    case HandleDownload => "handleDownload"
    case Script => "script"
    case OpenTab => "openTab"
    case SwitchTab => "switchTab"
    case CloseTab => "closeTab"
  }

  /** The node type a flow spells `s`, if any: the inverse of `TypeName`. */
  function TypeOfName(s: string): Option<NodeType> {
    if s == "navigate" then Some(Navigate)
    else if s == "click" then Some(Click)
    else if s == "dblclick" then Some(Dblclick)
    else if s == "fill" then Some(Fill)
    else if s == "key" then Some(Key)
    else if s == "wait" then Some(Wait)
    else if s == "assert" then Some(Assert)
    else if s == "delay" then Some(Delay)
    else if s == "if" then Some(If)
    else if s == "foreach" then Some(Foreach)
    else if s == "while" then Some(While)
    else if s == "http" then Some(Http)
    else if s == "extract" then Some(Extract)
    else if s == "screenshot" then Some(Screenshot)
    else if s == "triggerEvent" then Some(TriggerEvent)
    else if s == "setAttribute" then Some(SetAttribute)
    else if s == "loopElements" then Some(LoopElements)
    else if s == "switchFrame" then Some(SwitchFrame)
    else if s == "handleDownload" then Some(HandleDownload)
    else if s == "script" then Some(Script)
    else if s == "openTab" then Some(OpenTab)
    else if s == "switchTab" then Some(SwitchTab)
    else if s == "closeTab" then Some(CloseTab)
    else None
  }

  /** Every type name reads back as its type. */
  lemma TypeNameRoundTrip(t: NodeType)
    ensures TypeOfName(TypeName(t)) == Some(t)
  {
  }

  /** Different node types are spelt differently. */
  lemma TypeNameInjective(a: NodeType, b: NodeType)
    ensures TypeName(a) == TypeName(b) <==> a == b
  {
    TypeNameRoundTrip(a);
    TypeNameRoundTrip(b);
  }

  /** The canvas renderers. */
  datatype CanvasComponent = NodeCard | NodeIf

  /** The property renderers. */
  datatype PropertyComponent =
    | PropNavigate | PropClick | PropFill | PropKey | PropWait | PropAssert | PropDelay
    | PropIf | PropForeach | PropWhile
    | PropHttp | PropExtract | PropScreenshot | PropTriggerEvent | PropSetAttribute | PropLoopElements
    | PropSwitchFrame | PropHandleDownload | PropScript
    | PropOpenTab | PropSwitchTab | PropCloseTab

  /** `NodeUIConfig`. */
  datatype NodeUIConfig = NodeUIConfig(
    nodeType: NodeType, text: string, category: NodeCategory, iconClass: string,
    canvas: CanvasComponent, property: PropertyComponent)

  /** `NODE_UI_LIST`. */
  const NodeUIList: seq<NodeUIConfig> := [
    NodeUIConfig(Navigate, "导航", Actions, "icon-navigate", NodeCard, PropNavigate),
    NodeUIConfig(Click, "点击", Actions, "icon-click", NodeCard, PropClick),
    NodeUIConfig(Dblclick, "双击", Actions, "icon-click", NodeCard, PropClick),
    NodeUIConfig(Fill, "填充", Actions, "icon-fill", NodeCard, PropFill),
    NodeUIConfig(Key, "键盘", Actions, "icon-key", NodeCard, PropKey),
    NodeUIConfig(Wait, "等待", Actions, "icon-wait", NodeCard, PropWait),
    NodeUIConfig(Assert, "断言", Actions, "icon-assert", NodeCard, PropAssert),
    NodeUIConfig(Delay, "延迟", Actions, "icon-delay", NodeCard, PropDelay),
    NodeUIConfig(If, "条件", Logic, "icon-if", NodeIf, PropIf),
    NodeUIConfig(Foreach, "循环", Logic, "icon-foreach", NodeCard, PropForeach),
    NodeUIConfig(While, "循环", Logic, "icon-while", NodeCard, PropWhile),
    NodeUIConfig(Http, "HTTP", Tools, "icon-http", NodeCard, PropHttp),
    NodeUIConfig(Extract, "提取", Tools, "icon-extract", NodeCard, PropExtract),
    NodeUIConfig(Screenshot, "截图", Tools, "icon-screenshot", NodeCard, PropScreenshot),
    NodeUIConfig(TriggerEvent, "触发事件", Tools, "icon-trigger", NodeCard, PropTriggerEvent),
    NodeUIConfig(SetAttribute, "设置属性", Tools, "icon-attr", NodeCard, PropSetAttribute),
    NodeUIConfig(LoopElements, "循环元素", Tools, "icon-loop", NodeCard, PropLoopElements),
    NodeUIConfig(SwitchFrame, "切换Frame", Tools, "icon-frame", NodeCard, PropSwitchFrame),
    NodeUIConfig(HandleDownload, "下载处理", Tools, "icon-download", NodeCard, PropHandleDownload),
    NodeUIConfig(Script, "脚本", Tools, "icon-script", NodeCard, PropScript),
    NodeUIConfig(OpenTab, "打开标签", Tabs, "icon-openTab", NodeCard, PropOpenTab),
    NodeUIConfig(SwitchTab, "切换标签", Tabs, "icon-switchTab", NodeCard, PropSwitchTab),
    NodeUIConfig(CloseTab, "关闭标签", Tabs, "icon-closeTab", NodeCard, PropCloseTab)
  ]

  /** `NODE_CATEGORIES`, in sidebar order. */
  const NodeCategories: seq<NodeCategory> := [Actions, Logic, Tools, Tabs, Page]

  // ---------------------------------------------------------------------------------------
  // The registry
  // ---------------------------------------------------------------------------------------

  /** `Object.fromEntries(nodes.map((n) => [n.type, n]))`: a later entry for a type replaces an earlier one. */
  function Registry(nodes: seq<NodeUIConfig>): map<NodeType, NodeUIConfig> {
    if nodes == [] then map[]
    else
      var n := nodes[|nodes| - 1];
      Registry(nodes[..|nodes| - 1])[n.nodeType := n]
  }

  /** The types of `nodes`, in order. */
  function Types(nodes: seq<NodeUIConfig>): (r: seq<NodeType>)
    ensures |r| == |nodes| && forall i :: 0 <= i < |nodes| ==> r[i] == nodes[i].nodeType
  {
    seq(|nodes|, i requires 0 <= i < |nodes| => nodes[i].nodeType)
  }

  lemma TypesSnoc(nodes: seq<NodeUIConfig>)
    requires nodes != []
    ensures Types(nodes) == Types(nodes[..|nodes| - 1]) + [nodes[|nodes| - 1].nodeType]
  {
  }

  /** No two nodes share a type. */
  predicate DistinctTypes(nodes: seq<NodeUIConfig>) {
    forall i, j :: 0 <= i < j < |nodes| ==> nodes[i].nodeType != nodes[j].nodeType
  }

  /** The registry has a key for each type of the list and no other. */
  lemma {:induction false} RegistryKeys(nodes: seq<NodeUIConfig>)
    ensures forall t :: t in Registry(nodes) <==> t in Types(nodes)
  {
    if nodes != [] {
      RegistryKeys(nodes[..|nodes| - 1]);
      TypesSnoc(nodes);
    }
  }

  /** The registry maps each type to a node of the list with that type. */
  lemma {:induction false} RegistryValues(nodes: seq<NodeUIConfig>)
    ensures forall t :: t in Registry(nodes) ==> Registry(nodes)[t] in nodes && Registry(nodes)[t].nodeType == t
  {
    if nodes != [] {
      var prefix := nodes[..|nodes| - 1];
      RegistryValues(prefix);
      assert nodes == prefix + [nodes[|nodes| - 1]];
    }
  }

  /** When no two nodes share a type, the registry maps each node's type to that node. */
  lemma {:induction false} RegistryDistinct(nodes: seq<NodeUIConfig>)
    requires DistinctTypes(nodes)
    ensures forall i :: 0 <= i < |nodes| ==> nodes[i].nodeType in Registry(nodes) && Registry(nodes)[nodes[i].nodeType] == nodes[i]
  {
    if nodes != [] {
      var prefix := nodes[..|nodes| - 1];
      assert DistinctTypes(prefix) by {
        forall a, b | 0 <= a < b < |prefix| ensures prefix[a].nodeType != prefix[b].nodeType {
          assert prefix[a] == nodes[a] && prefix[b] == nodes[b];
        }
      }
      RegistryDistinct(prefix);
      forall i | 0 <= i < |prefix| ensures Registry(nodes)[nodes[i].nodeType] == nodes[i] {
        assert prefix[i] == nodes[i];
      }
    }
  }

  /** `NODE_UI_REGISTRY`. */
  function NodeUIRegistry(): map<NodeType, NodeUIConfig> {
    Registry(NodeUIList)
  }

  /** The list has 23 nodes, none in the `Page` category. */
  lemma NodeUIListShape()
    ensures |NodeUIList| == 23
    ensures forall i :: 0 <= i < |NodeUIList| ==> NodeUIList[i].category != Page
  {
  }

  /** The position of a node type in the list's order. */
  function TypeIndex(t: NodeType): nat {
    match t
    case Navigate => 0
    case Click => 1
    case Dblclick => 2
    case Fill => 3
    case Key => 4
    case Wait => 5
    case Assert => 6
    case Delay => 7
    case If => 8
    case Foreach => 9
    case While => 10
    case Http => 11
    case Extract => 12
    case Screenshot => 13
    case TriggerEvent => 14
    case SetAttribute => 15
    case LoopElements => 16
    case SwitchFrame => 17
    case HandleDownload => 18
    case Script => 19
    case OpenTab => 20
    case SwitchTab => 21
    case CloseTab => 22
  }

  lemma NodeUIListIndexed0()
    ensures forall i :: 0 <= i < 4 ==> TypeIndex(NodeUIList[i].nodeType) == i
  {
  }

  lemma NodeUIListIndexed1()
    ensures forall i :: 4 <= i < 8 ==> TypeIndex(NodeUIList[i].nodeType) == i
  {
  }

  lemma NodeUIListIndexed2()
    ensures forall i :: 8 <= i < 12 ==> TypeIndex(NodeUIList[i].nodeType) == i
  {
  }

  lemma NodeUIListIndexed3()
    ensures forall i :: 12 <= i < 16 ==> TypeIndex(NodeUIList[i].nodeType) == i
  {
  }

  lemma NodeUIListIndexed4()
    ensures forall i :: 16 <= i < 20 ==> TypeIndex(NodeUIList[i].nodeType) == i
  {
  }

  lemma NodeUIListIndexed5()
    ensures forall i :: 20 <= i < 23 ==> TypeIndex(NodeUIList[i].nodeType) == i
  {
  }

  /** The list holds the node types in `TypeIndex` order, so each at most once. */
  lemma NodeUIListIndexed()
    ensures forall i :: 0 <= i < |NodeUIList| ==> TypeIndex(NodeUIList[i].nodeType) == i
  {
    NodeUIListIndexed0();
    NodeUIListIndexed1();
    NodeUIListIndexed2();
    NodeUIListIndexed3();
    NodeUIListIndexed4();
    NodeUIListIndexed5();
  }

  /** No two nodes of the list share a type. */
  lemma NodeUIListDistinct()
    ensures DistinctTypes(NodeUIList)
  {
    NodeUIListIndexed();
  }

  /** The registry maps the type of each node of the list to that node, and knows no other type. */
  lemma NodeUIRegistrySound()
    ensures forall i :: 0 <= i < |NodeUIList| ==>
      NodeUIList[i].nodeType in NodeUIRegistry() && NodeUIRegistry()[NodeUIList[i].nodeType] == NodeUIList[i]
    ensures forall t :: t in NodeUIRegistry() <==> t in Types(NodeUIList)
  {
    NodeUIListDistinct();
    RegistryKeys(NodeUIList);
    RegistryDistinct(NodeUIList);
  }

  // ---------------------------------------------------------------------------------------
  // Grouping by category
  // ---------------------------------------------------------------------------------------

  /** The nodes of `nodes` in category `c`, in list order. */
  function InCategory(nodes: seq<NodeUIConfig>, c: NodeCategory): seq<NodeUIConfig> {
    if nodes == [] then []
    else
      var n := nodes[|nodes| - 1];
      InCategory(nodes[..|nodes| - 1], c) + (if n.category == c then [n] else [])
  }

  /** `xs` is `ys` with some elements left out, the rest in their order. */
  predicate Subsequence<T(==)>(xs: seq<T>, ys: seq<T>)
    decreases |ys|
  {
    if ys == [] then xs == []
    else
      || (xs != [] && xs[|xs| - 1] == ys[|ys| - 1] && Subsequence(xs[..|xs| - 1], ys[..|ys| - 1]))
      || Subsequence(xs, ys[..|ys| - 1])
  }

  /** Grouping keeps the list's order: each category's nodes form a subsequence of the list. */
  lemma {:induction false} InCategoryOrdered(nodes: seq<NodeUIConfig>, c: NodeCategory)
    ensures Subsequence(InCategory(nodes, c), nodes)
  {
    if nodes != [] {
      var prefix := nodes[..|nodes| - 1];
      var n := nodes[|nodes| - 1];
      InCategoryOrdered(prefix, c);
      var r := InCategory(nodes, c);
      if n.category == c {
        assert r[|r| - 1] == n && r[..|r| - 1] == InCategory(prefix, c);
      } else {
        assert r == InCategory(prefix, c);
      }
    }
  }

  /**
   * A category's list holds each node of that category as often as the list does, and no
   * node of another category.
   */
  lemma {:induction false} InCategoryCounts(nodes: seq<NodeUIConfig>, c: NodeCategory)
    ensures forall n :: multiset(InCategory(nodes, c))[n] == if n.category == c then multiset(nodes)[n] else 0
  {
    if nodes != [] {
      var prefix := nodes[..|nodes| - 1];
      InCategoryCounts(prefix, c);
      assert nodes == prefix + [nodes[|nodes| - 1]];
    }
  }

  /** The five category lists together are as long as the list. */
  lemma {:induction false} InCategoryLengths(nodes: seq<NodeUIConfig>)
    ensures |InCategory(nodes, Actions)| + |InCategory(nodes, Logic)| + |InCategory(nodes, Tools)|
      + |InCategory(nodes, Tabs)| + |InCategory(nodes, Page)| == |nodes|
  {
    if nodes != [] {
      InCategoryLengths(nodes[..|nodes| - 1]);
    }
  }

  /** No node of `nodes` has category `c`: its list is empty. */
  lemma {:induction false} InCategoryEmpty(nodes: seq<NodeUIConfig>, c: NodeCategory)
    requires forall i :: 0 <= i < |nodes| ==> nodes[i].category != c
    ensures InCategory(nodes, c) == []
  {
    if nodes != [] {
      InCategoryEmpty(nodes[..|nodes| - 1], c);
    }
  }

  /**
   * `listByCategory` over `nodes` (the registry passes `NODE_UI_LIST`): a list per category,
   * each node pushed onto its category's list in turn.
   */
  method ListByCategory(nodes: seq<NodeUIConfig>) returns (out: map<NodeCategory, seq<NodeUIConfig>>)
    ensures forall c :: c in out && out[c] == InCategory(nodes, c)
  {
    out := map[Actions := [], Logic := [], Tools := [], Tabs := [], Page := []];
    var i := 0;
    assert forall c :: c in out && InCategory(nodes[..0], c) == [] by {
      forall c ensures c in out && InCategory(nodes[..0], c) == [] {
        match c
        case Actions =>
        case Logic =>
        case Tools =>
        case Tabs =>
        case Page =>
      }
    }
    while i < |nodes|
      invariant 0 <= i <= |nodes|
      invariant forall c :: c in out && out[c] == InCategory(nodes[..i], c)
    {
      var n := nodes[i];
      assert nodes[..i + 1][..i] == nodes[..i];
      out := out[n.category := out[n.category] + [n]];
      i := i + 1;
    }
    assert nodes[..i] == nodes;
  }

  /** The `Page` category of the list is empty, and the other four share its 23 nodes. */
  lemma PageIsEmpty()
    ensures InCategory(NodeUIList, Page) == []
    ensures |InCategory(NodeUIList, Actions)| + |InCategory(NodeUIList, Logic)| + |InCategory(NodeUIList, Tools)|
      + |InCategory(NodeUIList, Tabs)| == 23
  {
    NodeUIListShape();
    InCategoryEmpty(NodeUIList, Page);
    InCategoryLengths(NodeUIList);
  }

  // ---------------------------------------------------------------------------------------
  // Canvas keys
  // ---------------------------------------------------------------------------------------

  /** `canvasTypeKey(t)`: the key under which the canvas registers the renderer of a type. */
  function CanvasTypeKey(t: NodeType): (r: string)
    ensures |r| == |TypeName(t)| + 3 && r[..3] == "rr-" && r[3..] == TypeName(t)
  {
    "rr-" + TypeName(t)
  }

  /** Two types share a canvas key exactly when they are the same type. */
  lemma CanvasTypeKeyInjective(a: NodeType, b: NodeType)
    ensures CanvasTypeKey(a) == CanvasTypeKey(b) <==> a == b
  {
    if CanvasTypeKey(a) == CanvasTypeKey(b) {
      assert TypeName(a) == CanvasTypeKey(a)[3..];
    }
    TypeNameInjective(a, b);
  }
}
