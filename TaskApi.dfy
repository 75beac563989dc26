/**
 * The in-memory task list of the task API (app.js): the module-level array
 * `taches`, the id counter `prochainId`, and the POST, PUT and DELETE
 * handlers on /taches without their Express plumbing.
 */
module TaskApi {
  import opened Wrappers

  const EnCours := "en cours"
  const Termine := "terminé"
  const DefaultDescription := "Aucune description"

  datatype Task = Task(id: int, nom: string, description: string, statut: string)

  /** What a handler answers: the HTTP status and, on success, the task it created, changed or removed. */
  datatype Response = Response(status: int, task: Option<Task>)

  /** JavaScript truthiness of an optional string field: present and not "". */
  predicate Truthy(field: Option<string>)
  {
    field.Some? && field.value != ""
  }

  predicate AllowedStatut(statut: string)
  {
    statut == EnCours || statut == Termine
  }

  /** The description a new task gets: the supplied one when truthy, else the French default. */
  function DescriptionOrDefault(description: Option<string>): (r: string)
    ensures Truthy(description) ==> r == description.value
    ensures !Truthy(description) ==> r == DefaultDescription
    ensures r != ""
  {
    if Truthy(description) then description.value else DefaultDescription
  }

  /** What `findIndex` on the id answers: the first position holding that id, or -1. */
  function IndexOfId(tasks: seq<Task>, id: int): (r: int)
    ensures -1 <= r < |tasks|
    ensures r == -1 <==> forall k :: 0 <= k < |tasks| ==> tasks[k].id != id
    ensures r >= 0 ==> tasks[r].id == id && forall k :: 0 <= k < r ==> tasks[k].id != id
  {
    if |tasks| == 0 then -1
    else if tasks[0].id == id then 0
    else
      var r := IndexOfId(tasks[1..], id);
      if r == -1 then -1 else r + 1
  }

  /** The linear search behind `find` and `findIndex`. */
  method FindIndex(tasks: seq<Task>, id: int) returns (index: int)
    ensures index == IndexOfId(tasks, id)
  {
    index := 0;
    while index < |tasks|
      invariant 0 <= index <= |tasks|
      invariant forall k :: 0 <= k < index ==> tasks[k].id != id
    {
      if tasks[index].id == id {
        return;
      }
      index := index + 1;
    }
    index := -1;
  }

  /** The in-place assignments of PUT: each truthy field replaces the old one; the id never changes. */
  function ApplyUpdate(t: Task, nom: Option<string>, description: Option<string>, statut: Option<string>): (r: Task)
    ensures r.id == t.id
    ensures r.nom == (if Truthy(nom) then nom.value else t.nom)
    ensures r.description == (if Truthy(description) then description.value else t.description)
    ensures r.statut == (if Truthy(statut) then statut.value else t.statut)
  {
    var t1 := if Truthy(nom) then t.(nom := nom.value) else t;
    var t2 := if Truthy(description) then t1.(description := description.value) else t1;
    if Truthy(statut) then t2.(statut := statut.value) else t2
  }

  /** Splicing out one element: the list without the element at `index`. */
  function RemoveAt(tasks: seq<Task>, index: nat): (r: seq<Task>)
    requires index < |tasks|
    ensures |r| == |tasks| - 1
    ensures forall k :: 0 <= k < index ==> r[k] == tasks[k]
    ensures forall k :: index <= k < |r| ==> r[k] == tasks[k + 1]
    ensures multiset(r) + multiset{tasks[index]} == multiset(tasks)
  {
    assert tasks == tasks[..index] + [tasks[index]] + tasks[index + 1..];
    tasks[..index] + tasks[index + 1..]
  }

  /** Ids are pairwise distinct. */
  ghost predicate DistinctIds(tasks: seq<Task>)
  {
    forall i, j :: 0 <= i < j < |tasks| ==> tasks[i].id != tasks[j].id
  }

  /** The list invariant: distinct ids, all below the counter, every statut allowed. */
  ghost predicate TasksInvariant(tasks: seq<Task>, next: int)
  {
    && DistinctIds(tasks)
    && (forall i :: 0 <= i < |tasks| ==> tasks[i].id < next)
    && (forall i :: 0 <= i < |tasks| ==> AllowedStatut(tasks[i].statut))
  }

  /** After removing the task found for `id` from a list with distinct ids, no task has that id. */
  lemma {:induction false} RemoveFoundId(tasks: seq<Task>, id: int)
    requires DistinctIds(tasks)
    requires IndexOfId(tasks, id) >= 0
    ensures forall k :: 0 <= k < |RemoveAt(tasks, IndexOfId(tasks, id))| ==>
      RemoveAt(tasks, IndexOfId(tasks, id))[k].id != id
  {
    var i := IndexOfId(tasks, id);
    var r := RemoveAt(tasks, i);
    forall k | 0 <= k < |r| ensures r[k].id != id {
      if k < i {
        assert r[k] == tasks[k];
      } else {
        assert r[k] == tasks[k + 1];
        assert tasks[i].id != tasks[k + 1].id;
      }
    }
  }

  /** Removing a task keeps the invariant. */
  lemma RemoveKeepsInvariant(tasks: seq<Task>, next: int, index: nat)
    requires index < |tasks|
    requires TasksInvariant(tasks, next)
    ensures TasksInvariant(RemoveAt(tasks, index), next)
  {
    var r := RemoveAt(tasks, index);
    forall i, j | 0 <= i < j < |r| ensures r[i].id != r[j].id {
      var i' := if i < index then i else i + 1;
      var j' := if j < index then j else j + 1;
      assert r[i] == tasks[i'] && r[j] == tasks[j'];
    }
  }

  /** The state of app.js: `taches` and `prochainId`. */
  class TaskList {
    var taches: seq<Task>
    var prochainId: int
    /** Every id ever handed out, the two initial tasks' included. */
    ghost var issued: set<int>

    ghost predicate Valid()
      reads this
    {
      && TasksInvariant(taches, prochainId)
      && (forall i :: 0 <= i < |taches| ==> taches[i].id in issued)
      && (forall id :: id in issued ==> id < prochainId)
    }

    /** The two tasks the module starts with, and the counter at 3. */
    constructor ()
      ensures Valid()
      ensures taches == [
        Task(1, "Apprendre Express", "Suivre un tutoriel sur Express.js", EnCours),
        Task(2, "Faire les courses", "Acheter du pain et du lait", Termine)]
      ensures prochainId == 3
    {
      taches := [
        Task(1, "Apprendre Express", "Suivre un tutoriel sur Express.js", EnCours),
        Task(2, "Faire les courses", "Acheter du pain et du lait", Termine)];
      prochainId := 3;
      issued := {1, 2};
    }

    /** POST /taches */
    method Add(nom: Option<string>, description: Option<string>) returns (response: Response)
      requires Valid()
      modifies this
      ensures Valid()
      ensures !Truthy(nom) ==>
        && response == Response(400, None)
        && taches == old(taches) && prochainId == old(prochainId) && issued == old(issued)
      ensures Truthy(nom) ==>
        var t := Task(old(prochainId), nom.value, DescriptionOrDefault(description), EnCours);
        && response == Response(201, Some(t))
        && taches == old(taches) + [t]
        && prochainId == old(prochainId) + 1
        && t.id !in old(issued)
        && issued == old(issued) + {t.id}
    {
      if !Truthy(nom) {
        return Response(400, None);
      }
      var id := prochainId;
      prochainId := prochainId + 1;
      var nouvelleTache := Task(id, nom.value, DescriptionOrDefault(description), EnCours);
      taches := taches + [nouvelleTache];
      issued := issued + {id};
      response := Response(201, Some(nouvelleTache));
    }

    /** PUT /taches/:id — the unknown id is answered before the statut is checked. */
    method Update(id: int, nom: Option<string>, description: Option<string>, statut: Option<string>)
      returns (response: Response)
      requires Valid()
      modifies this
      ensures Valid()
      ensures prochainId == old(prochainId) && issued == old(issued)
      ensures IndexOfId(old(taches), id) == -1 ==>
        response == Response(404, None) && taches == old(taches)
      ensures IndexOfId(old(taches), id) >= 0 && Truthy(statut) && !AllowedStatut(statut.value) ==>
        response == Response(400, None) && taches == old(taches)
      ensures IndexOfId(old(taches), id) >= 0 && (!Truthy(statut) || AllowedStatut(statut.value)) ==>
        var i := IndexOfId(old(taches), id);
        var t := ApplyUpdate(old(taches)[i], nom, description, statut);
        && response == Response(200, Some(t))
        && taches == old(taches)[i := t]
    {
      var index := FindIndex(taches, id);
      if index == -1 {
        return Response(404, None);
      }
      if Truthy(statut) && statut.value != EnCours && statut.value != Termine {
        return Response(400, None);
      }
      var tache := ApplyUpdate(taches[index], nom, description, statut);
      taches := taches[index := tache];
      response := Response(200, Some(tache));
    }

    /** DELETE /taches/:id */
    method Delete(id: int) returns (response: Response)
      requires Valid()
      modifies this
      ensures Valid()
      ensures prochainId == old(prochainId) && issued == old(issued)
      ensures IndexOfId(old(taches), id) == -1 ==>
        response == Response(404, None) && taches == old(taches)
      ensures IndexOfId(old(taches), id) >= 0 ==>
        var i := IndexOfId(old(taches), id);
        && response == Response(200, Some(old(taches)[i]))
        && taches == RemoveAt(old(taches), i)
        && forall k :: 0 <= k < |taches| ==> taches[k].id != id
    {
      var index := FindIndex(taches, id);
      if index == -1 {
        return Response(404, None);
      }
      var tacheSupprimee := taches[index];
      RemoveFoundId(taches, id);
      RemoveKeepsInvariant(taches, prochainId, index);
      taches := RemoveAt(taches, index);
      response := Response(200, Some(tacheSupprimee));
    }
  }
}
