/**
 * The project gallery's likes: the popup's current project, the set of
 * liked team names, and the like counter each project carries. Saving the
 * set to browser storage and the button animations are not modelled.
 */
module GalleryLikes {
  import opened Base

  /** A gallery entry; only its like counter ever changes. */
  class Project {
    const team: string
    const theme: string
    const county: string
    /** `likes`, which the data may leave undefined. */
    var likes: Option<int>

    constructor (team: string, theme: string, county: string, likes: Option<int>)
      ensures this.team == team && this.theme == theme && this.county == county
      ensures this.likes == likes
    {
      this.team := team;
      this.theme := theme;
      this.county := county;
      this.likes := likes;
    }
  }

  /** `likes || 0`. */
  function LikesOrZero(likes: Option<int>): int
  {
    if likes.Some? then likes.value else 0
  }

  /** The liked set once `team` is toggled: in if it was out, out if it was in. */
  function Toggled(liked: set<string>, team: string): (r: set<string>)
    ensures team in r <==> team !in liked
    ensures forall t :: t != team ==> (t in r <==> t in liked)
  {
    if team in liked then liked - {team} else liked + {team}
  }

  /** The new counter: one less but never below zero on an unlike, one more on a like. */
  function LikesAfter(wasLiked: bool, likes: Option<int>): (n: int)
    ensures wasLiked && LikesOrZero(likes) >= 1 ==> n == LikesOrZero(likes) - 1
    ensures wasLiked && LikesOrZero(likes) <= 0 ==> n == 0
    ensures !wasLiked ==> n == LikesOrZero(likes) + 1
  {
    if wasLiked then Max(0, LikesOrZero(likes) - 1) else LikesOrZero(likes) + 1
  }

  /** Toggling the same team twice restores the liked set. */
  lemma ToggledTwice(liked: set<string>, team: string)
    ensures Toggled(Toggled(liked, team), team) == liked
  {
  }

  /** A like followed by an unlike restores a non-negative counter. */
  lemma LikeThenUnlike(likes: Option<int>)
    requires LikesOrZero(likes) >= 0
    ensures LikesAfter(true, Some(LikesAfter(false, likes))) == LikesOrZero(likes)
  {
  }

  /** An unlike of a positive counter followed by a like restores it. */
  lemma UnlikeThenLike(likes: Option<int>)
    requires LikesOrZero(likes) >= 1
    ensures LikesAfter(false, Some(LikesAfter(true, likes))) == LikesOrZero(likes)
  {
  }

  /** Unliking a project with no likes leaves it at zero rather than -1. */
  lemma UnlikeAtZero()
    ensures LikesAfter(true, None) == 0 && LikesAfter(true, Some(0)) == 0
  {
  }

  /** The page state the like button works on. */
  class Page {
    var currentProject: Project?
    var likedProjects: set<string>

    constructor ()
      ensures currentProject == null && likedProjects == {}
    {
      currentProject := null;
      likedProjects := {};
    }

    /** `showProjectPopup`: the project becomes the one the like button acts on. */
    method ShowProjectPopup(project: Project)
      modifies this
      ensures currentProject == project && likedProjects == old(likedProjects)
    {
      currentProject := project;
    }

    /** `hideProjectPopup`: no project is current any more. */
    method HideProjectPopup()
      modifies this
      ensures currentProject == null && likedProjects == old(likedProjects)
    {
      currentProject := null;
    }

    /**
     * `toggleLike`: with no current project nothing happens; otherwise the
     * project's team is toggled in the liked set and its counter follows.
     */
    method ToggleLike()
      modifies this, currentProject
      ensures currentProject == old(currentProject)
      ensures currentProject == null ==> likedProjects == old(likedProjects)
      ensures currentProject != null ==>
        likedProjects == Toggled(old(likedProjects), currentProject.team)
        && currentProject.likes == Some(LikesAfter(currentProject.team in old(likedProjects), old(currentProject.likes)))
    {
      if currentProject == null {
        return;
      }
      var projectId := currentProject.team;
      var isLiked := projectId in likedProjects;
      if isLiked {
        likedProjects := likedProjects - {projectId};
        currentProject.likes := Some(Max(0, LikesOrZero(currentProject.likes) - 1));
      } else {
        likedProjects := likedProjects + {projectId};
        currentProject.likes := Some(LikesOrZero(currentProject.likes) + 1);
      }
    }
  }
}
