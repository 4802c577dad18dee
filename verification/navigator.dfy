/** The cursor over the crawled tree: the folder path from the root and the selected file. */
module Navigator {
  import opened Wrappers
  import opened Catalog

  /** The navigation state: the tree (null before loading), the folder names from the root, and the selection. */
  datatype Nav = Nav(tree: Option<seq<Node>>, currentPath: seq<string>, selected: Option<Node>)

  /** What `selectMp3File` returns: the file's URL and title (undefined for a node without a title). */
  datatype Selection = Selection(url: Url, title: Option<string>)

  predicate IsFolderNamed(n: Node, name: string) {
    n.Folder? && n.name == name
  }

  /** The position of the first folder called `name` among `items`, if there is one. */
  function FindFolder(items: seq<Node>, name: string): (r: Option<nat>)
    ensures r.Some? ==> r.value < |items| && IsFolderNamed(items[r.value], name)
    ensures r.Some? ==> forall j :: 0 <= j < r.value ==> !IsFolderNamed(items[j], name)
    ensures r.None? ==> forall j :: 0 <= j < |items| ==> !IsFolderNamed(items[j], name)
    decreases |items|
  {
    if |items| == 0 then None
    else if IsFolderNamed(items[0], name) then Some(0)
    else
      match FindFolder(items[1..], name)
      case None => None
      case Some(i) => Some(i + 1)
  }

  /** Follows `path` down from the forest `current`, one matching folder per name. */
  function Walk(current: seq<Node>, path: seq<string>): Option<seq<Node>>
    decreases |path|
  {
    if |path| == 0 then Some(current)
    else
      match FindFolder(current, path[0])
      case None => None
      case Some(i) => Walk(current[i].children, path[1..])
  }

  /** The folder contents `path` leads to: none without a tree, the root for the empty path. */
  function CurrentFolder(tree: Option<seq<Node>>, path: seq<string>): (r: Option<seq<Node>>)
    ensures tree.None? ==> r.None?
    ensures tree.Some? && path == [] ==> r == tree
  {
    match tree
    case None => None
    case Some(root) => Walk(root, path)
  }

  /** `getCurrentFolder`: the loop over the path, returning null at the first name with no matching folder. */
  method GetCurrentFolder(nav: Nav) returns (r: Option<seq<Node>>)
    ensures r == CurrentFolder(nav.tree, nav.currentPath)
  {
    if nav.tree.None? {
      return None;
    }
    var path := nav.currentPath;
    var current := nav.tree.value;
    var i := 0;
    while i < |path|
      invariant 0 <= i <= |path|
      invariant Walk(nav.tree.value, path) == Walk(current, path[i..])
    {
      assert path[i..][0] == path[i] && path[i..][1..] == path[i + 1..];
      var found := FindFolder(current, path[i]);
      if found.None? {
        return None;
      }
      current := current[found.value].children;
      i := i + 1;
    }
    return Some(current);
  }

  /** `navigateToFolder`: appends the name to the path. */
  function NavigateToFolder(nav: Nav, folderName: string): (r: Nav)
    ensures |r.currentPath| == |nav.currentPath| + 1
    ensures r.currentPath[..|nav.currentPath|] == nav.currentPath && r.currentPath[|nav.currentPath|] == folderName
    ensures r.tree == nav.tree && r.selected == nav.selected
  {
    nav.(currentPath := nav.currentPath + [folderName])
  }

  /** `navigateBack`: drops the last name of the path; a no-op at the root. */
  function NavigateBack(nav: Nav): (r: Nav)
    ensures nav.currentPath == [] ==> r == nav
    ensures nav.currentPath != [] ==> r.currentPath + [nav.currentPath[|nav.currentPath| - 1]] == nav.currentPath
    ensures r.tree == nav.tree && r.selected == nav.selected
  {
    if |nav.currentPath| > 0 then nav.(currentPath := nav.currentPath[..|nav.currentPath| - 1]) else nav
  }

  /** `resetPath`: back to the root. */
  function ResetPath(nav: Nav): (r: Nav)
    ensures r.currentPath == []
    ensures CurrentFolder(r.tree, r.currentPath) == nav.tree
    ensures r.tree == nav.tree && r.selected == nav.selected
  {
    nav.(currentPath := [])
  }

  /** `selectMp3File`: remembers the node and returns its URL and title. */
  function SelectMp3File(nav: Nav, file: Node): (r: (Nav, Selection))
    ensures r.0.selected == Some(file)
    ensures r.0.tree == nav.tree && r.0.currentPath == nav.currentPath
    ensures r.1.url == file.url
    ensures file.File? ==> r.1.title == Some(file.title)
    ensures file.Folder? ==> r.1.title.None?
  {
    (nav.(selected := Some(file)), Selection(file.url, if file.File? then Some(file.title) else None))
  }

  /** `clearSelection`: forgets the selected file. */
  function ClearSelection(nav: Nav): (r: Nav)
    ensures r.selected.None?
    ensures r.tree == nav.tree && r.currentPath == nav.currentPath
  {
    nav.(selected := None)
  }

  /** Going into a folder and back restores the path exactly. */
  lemma BackUndoesNavigate(nav: Nav, folderName: string)
    ensures NavigateBack(NavigateToFolder(nav, folderName)) == nav
  {
    assert (nav.currentPath + [folderName])[..|nav.currentPath|] == nav.currentPath;
  }

  /** Walking one more name is one more folder lookup in the contents reached so far. */
  lemma {:induction false} WalkSnoc(current: seq<Node>, path: seq<string>, name: string)
    ensures Walk(current, path + [name]) ==
              match Walk(current, path)
              case None => None
              case Some(f) =>
                match FindFolder(f, name)
                case None => None
                case Some(i) => Some(f[i].children)
    decreases |path|
  {
    if |path| == 0 {
      assert path + [name] == [name];
      assert [name][1..] == [];
    } else {
      assert (path + [name])[0] == path[0] && (path + [name])[1..] == path[1..] + [name];
      match FindFolder(current, path[0])
      case None =>
      case Some(i) => WalkSnoc(current[i].children, path[1..], name);
    }
  }

  /** Once a prefix of the path fails to resolve, every extension of it fails too. */
  lemma {:induction false} WalkFailureSticks(current: seq<Node>, path: seq<string>, more: seq<string>)
    requires Walk(current, path).None?
    ensures Walk(current, path + more).None?
    decreases |path|
  {
    assert |path| > 0;
    assert (path + more)[0] == path[0] && (path + more)[1..] == path[1..] + more;
    match FindFolder(current, path[0])
    case None =>
    case Some(i) => WalkFailureSticks(current[i].children, path[1..], more);
  }

  /** Entering a folder of the current contents shows that folder's children; entering a missing one shows none. */
  lemma NavigateShowsChildren(nav: Nav, folderName: string, contents: seq<Node>)
    requires CurrentFolder(nav.tree, nav.currentPath) == Some(contents)
    ensures FindFolder(contents, folderName).Some? ==>
              CurrentFolder(nav.tree, NavigateToFolder(nav, folderName).currentPath) ==
              Some(contents[FindFolder(contents, folderName).value].children)
    ensures FindFolder(contents, folderName).None? ==>
              CurrentFolder(nav.tree, NavigateToFolder(nav, folderName).currentPath).None?
  {
    WalkSnoc(nav.tree.value, nav.currentPath, folderName);
  }
}
