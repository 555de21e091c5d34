/**
 * The hosted backend as the actions see it: a `projects` table and a
 * `skills` table, each a map from row id to row, and the set of object paths
 * in the `portfolio-images` bucket. Remote outcomes (errors, assigned ids) are
 * passed in; the backend only applies the change the outcome allows.
 */
module Remote {
  import opened Common

  /** A row of the `projects` table (only the columns the actions write). */
  datatype Project = Project(
    title: string,
    description: string,
    technologies: seq<string>,
    githubUrl: Option<string>,
    liveDemoUrl: Option<string>,
    imageUrls: Option<seq<string>>,
    isPublished: bool,
    userId: string)

  /** A row of the `skills` table. */
  datatype Skill = Skill(
    name: string,
    iconUrl: Option<string>,
    userId: string,
    category: Option<string>)

  /** A request sent to the storage bucket, in the order the actions send them. */
  datatype StorageCall = UploadCall(path: string) | RemoveCall(paths: seq<string>)

  /** What the database answers to an insert: the id it assigned, or an error. */
  datatype InsertOutcome = Inserted(id: string) | InsertFailed(message: string)

  class Backend {
    /** Everything in a public URL before the bucket name. */
    const publicBase: string
    var projects: map<string, Project>
    var skills: map<string, Skill>
    var bucket: set<string>
    /** Storage requests sent so far. */
    var calls: seq<StorageCall>

    constructor (publicBase: string, projects: map<string, Project>, skills: map<string, Skill>, bucket: set<string>)
      ensures this.publicBase == publicBase && this.projects == projects
      ensures this.skills == skills && this.bucket == bucket && calls == []
    {
      this.publicBase := publicBase;
      this.projects := projects;
      this.skills := skills;
      this.bucket := bucket;
      calls := [];
    }

    /** `storage.upload(path, file, {upsert: false})`: on success the object exists. */
    method Upload(path: string, error: Option<string>)
      modifies this
      ensures bucket == if error.None? then old(bucket) + {path} else old(bucket)
      ensures calls == old(calls) + [UploadCall(path)]
      ensures projects == old(projects) && skills == old(skills)
    {
      if error.None? {
        bucket := bucket + {path};
      }
      calls := calls + [UploadCall(path)];
    }

    /** `storage.remove(paths)`: on success none of the objects exists any more;
        on error the bucket is left as it was. */
    method Remove(paths: seq<string>, error: Option<string>)
      modifies this
      ensures bucket == if error.None? then old(bucket) - Elements(paths) else old(bucket)
      ensures calls == old(calls) + [RemoveCall(paths)]
      ensures projects == old(projects) && skills == old(skills)
    {
      if error.None? {
        bucket := bucket - Elements(paths);
      }
      calls := calls + [RemoveCall(paths)];
    }

    /** `from("projects").select(...).eq("id", id).single()`: the row, or no data
        when the request failed or no row has that id. */
    method FetchProject(id: string, error: Option<string>) returns (row: Option<Project>)
      ensures row == if error.None? && id in projects then Some(projects[id]) else None
    {
      row := if error.None? && id in projects then Some(projects[id]) else None;
    }

    /** `from("projects").insert(row)` under a fresh id. */
    method InsertProject(row: Project, outcome: InsertOutcome) returns (error: Option<string>)
      requires outcome.Inserted? ==> outcome.id !in projects
      modifies this
      ensures error == if outcome.Inserted? then None else Some(outcome.message)
      ensures projects == if outcome.Inserted? then old(projects)[outcome.id := row] else old(projects)
      ensures skills == old(skills) && bucket == old(bucket) && calls == old(calls)
      ensures outcome.InsertFailed? ==> unchanged(this)
    {
      if outcome.Inserted? {
        projects := projects[outcome.id := row];
        error := None;
      } else {
        error := Some(outcome.message);
      }
    }

    /** `from("projects").update(row).eq("id", id)`. */
    method UpdateProject(id: string, row: Project, error: Option<string>)
      modifies this
      ensures projects == if error.None? && id in old(projects) then old(projects)[id := row] else old(projects)
      ensures skills == old(skills) && bucket == old(bucket) && calls == old(calls)
      ensures error.Some? || id !in old(projects) ==> unchanged(this)
    {
      if error.None? && id in projects {
        projects := projects[id := row];
      }
    }

    /** `from("projects").delete().eq("id", id)`. */
    method DeleteProject(id: string, error: Option<string>)
      modifies this
      ensures projects == if error.None? then old(projects) - {id} else old(projects)
      ensures skills == old(skills) && bucket == old(bucket) && calls == old(calls)
      ensures error.Some? ==> unchanged(this)
    {
      if error.None? {
        projects := projects - {id};
      }
    }

    /** `from("skills").select("icon_url").eq("id", id).single()`. */
    method FetchSkill(id: string, error: Option<string>) returns (row: Option<Skill>)
      ensures row == if error.None? && id in skills then Some(skills[id]) else None
    {
      row := if error.None? && id in skills then Some(skills[id]) else None;
    }

    /** `from("skills").insert(row)` under a fresh id. */
    method InsertSkill(row: Skill, outcome: InsertOutcome) returns (error: Option<string>)
      requires outcome.Inserted? ==> outcome.id !in skills
      modifies this
      ensures error == if outcome.Inserted? then None else Some(outcome.message)
      ensures skills == if outcome.Inserted? then old(skills)[outcome.id := row] else old(skills)
      ensures projects == old(projects) && bucket == old(bucket) && calls == old(calls)
      ensures outcome.InsertFailed? ==> unchanged(this)
    {
      if outcome.Inserted? {
        skills := skills[outcome.id := row];
        error := None;
      } else {
        error := Some(outcome.message);
      }
    }

    /** `from("skills").update(row).eq("id", id)`. */
    method UpdateSkill(id: string, row: Skill, error: Option<string>)
      modifies this
      ensures skills == if error.None? && id in old(skills) then old(skills)[id := row] else old(skills)
      ensures projects == old(projects) && bucket == old(bucket) && calls == old(calls)
      ensures error.Some? || id !in old(skills) ==> unchanged(this)
    {
      if error.None? && id in skills {
        skills := skills[id := row];
      }
    }

    /** `from("skills").delete().eq("id", id)`. */
    method DeleteSkill(id: string, error: Option<string>)
      modifies this
      ensures skills == if error.None? then old(skills) - {id} else old(skills)
      ensures projects == old(projects) && bucket == old(bucket) && calls == old(calls)
      ensures error.Some? ==> unchanged(this)
    {
      if error.None? {
        skills := skills - {id};
      }
    }
  }
}
