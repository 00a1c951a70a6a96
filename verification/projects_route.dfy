/**
 * `GET` and `POST /api/projects` (src/app/api/projects/route.ts). Unlike the other routes these
 * send bare bodies, not envelopes: the project list, the created project, or `{error}`. The
 * body, whether the store can be reached, and the URL check are inputs as in the other routes.
 */
module ProjectsRoute {
  import opened Wrappers
  import opened Json
  import opened Validation
  import opened Seqs
  import opened Text
  import opened Schema
  import opened Store
  import ProjectService

  /** What the route sends: the list, the new project, or an error message. */
  datatype Body = Projects(items: seq<Project>) | Created(project: Project) | Error(error: string)

  datatype ProjectsReply = ProjectsReply(status: int, body: Body)

  /**
   * `GET`: the published projects of the category and search given (empty parameters ignored),
   * newest first, as a bare array; 500 with an error message when the store fails.
   */
  method Get(db: Database, category: Option<string>, search: Option<string>, reachable: bool)
    returns (r: ProjectsReply)
    requires db.Valid()
    ensures !reachable ==> r == ProjectsReply(500, Error("Failed to fetch projects"))
    ensures reachable ==> r.status == 200 && r.body.Projects?
    ensures reachable ==> SortedBy(r.body.items, CreatedAt, true)
    ensures reachable ==> forall p :: p in r.body.items <==>
      && p in db.projects.rows.Values
      && p.published
      && (NonEmptyOr(category).Some? ==>
            p.categoryId.Some? && p.categoryId.value in db.categories
            && db.categories[p.categoryId.value] == category.value)
      && (NonEmptyOr(search).Some? ==>
            Contains(p.title, search.value) || Contains(p.description, search.value))
    ensures reachable ==> forall p :: p in r.body.items ==> multiset(r.body.items)[p] == multiset(db.projects.Rows())[p]
  {
    if !reachable {
      return ProjectsReply(500, Error("Failed to fetch projects"));
    }
    var items := ProjectService.GetProjects(db, ProjectService.ProjectQuery(NonEmptyOr(category), NonEmptyOr(search)));
    r := ProjectsReply(200, Projects(items));
  }

  /** `projectSchema.parse(body)` succeeds. */
  predicate ValidProject(body: Json, isUrl: string -> bool) {
    && body.JObj?
    && NonEmptyString(body.Get("title")) && NonEmptyString(body.Get("description"))
    && OptString(body.Get("content"))
    && UrlOrEmpty(body.Get("repositoryUrl"), isUrl) && UrlOrEmpty(body.Get("demoUrl"), isUrl)
    && IsString(body.Get("authorId")) && IsString(body.Get("categoryId"))
    && OptStringArray(body.Get("tags"), None)
  }

  /** The parsed input; an empty URL stays the empty string here. */
  function ParseProject(body: Json, isUrl: string -> bool): (input: ProjectService.ProjectInput)
    requires ValidProject(body, isUrl)
    ensures body.Get("title") == Some(JStr(input.title)) && input.title != ""
    ensures body.Get("description") == Some(JStr(input.description)) && input.description != ""
    ensures body.Get("categoryId") == Some(JStr(input.categoryId))
    ensures body.Get("authorId") == Some(JStr(input.authorId))
    ensures && Carries(body.Get("content"), input.content) && Carries(body.Get("repositoryUrl"), input.repositoryUrl)
            && Carries(body.Get("demoUrl"), input.demoUrl)
    ensures CarriesAll(body.Get("tags"), input.tags)
    ensures input.repositoryUrl.Some? ==> input.repositoryUrl.value == "" || isUrl(input.repositoryUrl.value)
    ensures input.demoUrl.Some? ==> input.demoUrl.value == "" || isUrl(input.demoUrl.value)
  {
    ProjectService.ProjectInput(
      body.Get("title").value.s,
      body.Get("description").value.s,
      StringOf(body.Get("content")),
      StringOf(body.Get("repositoryUrl")),
      StringOf(body.Get("demoUrl")),
      body.Get("categoryId").value.s,
      body.Get("authorId").value.s,
      StringsOf(body.Get("tags")))
  }

  /**
   * `POST`: the project is created through the project service and sent back bare with 201.
   * Every failure, validation included, gives 400 with the same message: a body that is not
   * JSON or not valid, an id the store already holds, or a category id that names no category
   * (the foreign key the store enforces). Only a 201 changes the store.
   */
  method Post(db: Database, body: Option<Json>, isUrl: string -> bool, id: string, now: int)
    returns (r: ProjectsReply)
    requires db.Valid()
    modifies db
    ensures db.Valid()
    ensures r.status == 201 <==>
      && body.Some? && ValidProject(body.value, isUrl)
      && id !in old(db.projects.rows)
      && ParseProject(body.value, isUrl).categoryId in old(db.categories)
    ensures r.status != 201 ==> r == ProjectsReply(400, Error("Failed to create project"))
    ensures r.status != 201 ==> db.projects == old(db.projects) && db.tags == old(db.tags)
    ensures r.status == 201 ==>
      && var input := ParseProject(body.value, isUrl);
      && r.body == Created(ProjectService.NewProject(input, id, now))
      && r.body.project.published
      && db.projects == old(db.projects).Insert(id, r.body.project)
      && db.tags == ConnectOrCreate(old(db.tags), ProjectService.EntriesOf(input.tags))
    ensures db.ideas == old(db.ideas) && db.events == old(db.events) && db.categories == old(db.categories)
  {
    var failed := ProjectsReply(400, Error("Failed to create project"));
    if body.None? || !ValidProject(body.value, isUrl) {
      return failed;
    }
    var input := ParseProject(body.value, isUrl);
    if id in db.projects.rows || input.categoryId !in db.categories {
      return failed;
    }
    var p := ProjectService.CreateProject(db, input, id, now);
    r := ProjectsReply(201, Created(p));
  }
}
