/** The project store: named projects, each an ordered list of scenes with
    an id counter, and the name of the project being edited. */
module ProjectStore {
  import opened Strings
  import opened Scenes

  /** The name of the project that exists when a session starts
      ("default shooting plan"). */
  const DefaultProjectName: string := "默认拍摄计划"

  /** s with the elements at i and j exchanged. */
  function Swap<T>(s: seq<T>, i: nat, j: nat): (r: seq<T>)
    requires i < |s| && j < |s|
    ensures |r| == |s|
    ensures r[i] == s[j] && r[j] == s[i]
    ensures forall k :: 0 <= k < |s| && k != i && k != j ==> r[k] == s[k]
    ensures multiset(r) == multiset(s)
  {
    s[i := s[j]][j := s[i]]
  }

  /** s without its element at i: `s.pop(i)`. */
  function RemoveAt<T>(s: seq<T>, i: nat): (r: seq<T>)
    requires i < |s|
    ensures |r| == |s| - 1
    ensures forall k :: 0 <= k < i ==> r[k] == s[k]
    ensures forall k :: i <= k < |r| ==> r[k] == s[k + 1]
    ensures multiset(r) == multiset(s) - multiset{s[i]}
  {
    assert s == s[..i] + [s[i]] + s[i + 1..];
    s[..i] + s[i + 1..]
  }

  /** One project: `{"scenes": [...], "next_scene_id": int}`. */
  class Project {
    var scenes: seq<Scene>
    var nextSceneId: int

    /** Every scene's id was handed out by the counter, which starts at 1,
        and no two scenes share an id. */
    ghost predicate Valid()
      reads this
    {
      && 1 <= nextSceneId
      && (forall k :: 0 <= k < |scenes| ==> 1 <= scenes[k].id < nextSceneId)
      && (forall j, k :: 0 <= j < k < |scenes| ==> scenes[j].id != scenes[k].id)
    }

    /** `{"scenes": [], "next_scene_id": 1}` */
    constructor ()
      ensures Valid()
      ensures scenes == [] && nextSceneId == 1
    {
      scenes := [];
      nextSceneId := 1;
    }

    /** The add-scene button: the new scene takes the counter's value as
        its id, the counter goes up by one, and the scene is appended. Its
        id is larger than the id of every scene already in the list. */
    method AddScene() returns (s: Scene)
      requires Valid()
      modifies this
      ensures Valid()
      ensures fresh(s)
      ensures s.id == old(nextSceneId) && nextSceneId == old(nextSceneId) + 1
      ensures scenes == old(scenes) + [s]
      ensures s.imageName == "" && forall f :: s.Texts(f) == EmptyBlock
      ensures forall k :: 0 <= k < |old(scenes)| ==> old(scenes)[k].id < s.id
    {
      var sid := nextSceneId;
      nextSceneId := nextSceneId + 1;
      s := new Scene(sid);
      scenes := scenes + [s];
    }

    /** The up button on the scene at idx: at the top it does nothing;
        otherwise that scene and the one above it trade places. */
    method MoveUp(idx: nat)
      requires Valid() && idx < |scenes|
      modifies this
      ensures Valid()
      ensures nextSceneId == old(nextSceneId)
      ensures scenes == if idx == 0 then old(scenes) else Swap(old(scenes), idx - 1, idx)
    {
      if idx > 0 {
        scenes := Swap(scenes, idx - 1, idx);
      }
    }

    /** The down button on the scene at idx: at the bottom it does
        nothing; otherwise that scene and the one below it trade places. */
    method MoveDown(idx: nat)
      requires Valid() && idx < |scenes|
      modifies this
      ensures Valid()
      ensures nextSceneId == old(nextSceneId)
      ensures scenes == if idx == |old(scenes)| - 1 then old(scenes) else Swap(old(scenes), idx + 1, idx)
    {
      if idx < |scenes| - 1 {
        scenes := Swap(scenes, idx + 1, idx);
      }
    }

    /** The delete button on the scene at idx: the scene leaves the list;
        the counter is not lowered, so its id is never handed out again. */
    method Delete(idx: nat)
      requires Valid() && idx < |scenes|
      modifies this
      ensures Valid()
      ensures nextSceneId == old(nextSceneId)
      ensures scenes == RemoveAt(old(scenes), idx)
    {
      scenes := RemoveAt(scenes, idx);
    }
  }

  /** What the create-project button made of the name it was given. */
  datatype CreateOutcome = Created | EmptyName | DuplicateName

  /** `st.session_state.projects` with `st.session_state.current_project`. */
  class Store {
    var projects: map<string, Project>
    var current: string

    /** The current name is a key; every project is valid; different
        names hold different projects. */
    ghost predicate Valid()
      reads this, projects.Values
    {
      && current in projects
      && (forall n :: n in projects ==> projects[n].Valid())
      && (forall n, m :: n in projects && m in projects && n != m ==> projects[n] != projects[m])
    }

    /** Session start: one empty default project, and it is current. */
    constructor ()
      ensures Valid()
      ensures projects.Keys == {DefaultProjectName} && current == DefaultProjectName
      ensures fresh(projects[DefaultProjectName])
      ensures projects[DefaultProjectName].scenes == [] && projects[DefaultProjectName].nextSceneId == 1
    {
      var p := new Project();
      projects := map[DefaultProjectName := p];
      current := DefaultProjectName;
    }

    /** The project being edited: `projects[current_project_name]`. */
    function Current(): Project
      reads this
      requires current in projects
    {
      projects[current]
    }

    /** The create-project button. A name that is blank, or that is an
        existing key once trimmed, changes nothing. Otherwise a fresh empty
        project is stored under the trimmed name and becomes current, and
        every existing project stays under its name. */
    method CreateProject(name: string) returns (outcome: CreateOutcome)
      requires Valid()
      modifies this
      ensures Valid()
      ensures outcome == if Trim(name) == "" then EmptyName
                         else if Trim(name) in old(projects) then DuplicateName
                         else Created
      ensures outcome != Created ==> projects == old(projects) && current == old(current)
      ensures outcome == Created ==>
        && projects.Keys == old(projects.Keys) + {Trim(name)}
        && current == Trim(name)
        && fresh(projects[current])
        && projects[current].scenes == [] && projects[current].nextSceneId == 1
        && forall n :: n in old(projects) ==> projects[n] == old(projects)[n]
    {
      var trimmed := Trim(name);
      if trimmed == "" {
        return EmptyName;
      }
      if trimmed in projects {
        return DuplicateName;
      }
      var p := new Project();
      projects := projects[trimmed := p];
      current := trimmed;
      outcome := Created;
    }
  }

  /** Add a scene, delete it, add another: the second scene does not get
      the first one's id back. */
  method IdsAreNotReused() returns (first: int, second: int)
    ensures first == 1 && second == 2
  {
    var p := new Project();
    var a := p.AddScene();
    first := a.id;
    p.Delete(0);
    var b := p.AddScene();
    second := b.id;
  }
}
