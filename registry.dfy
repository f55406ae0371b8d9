/** The online-player registry of the first version (`src/state.rs`). */
module Registry {

  /** The names of the players currently on the server. */
  class State {
    var online: set<string>

    /** `State::default()`: nobody is online. */
    constructor ()
      ensures online == {}
    {
      online := {};
    }

    /** Adds `player`; a name already present leaves the set as it was. */
    method InsertPlayer(player: string)
      modifies this
      ensures online == old(online) + {player}
      ensures player in online
      ensures player in old(online) ==> online == old(online)
      ensures forall q :: q != player ==> (q in online <==> q in old(online))
    {
      if player !in online {
        online := online + {player};
      }
    }

    /** Removes `player`; an absent name leaves the set as it was. */
    method RemovePlayer(player: string)
      modifies this
      ensures online == old(online) - {player}
      ensures player !in online
      ensures player !in old(online) ==> online == old(online)
      ensures forall q :: q != player ==> (q in online <==> q in old(online))
    {
      online := online - {player};
    }

    /** The current set, read without changing anything. */
    method Online() returns (players: set<string>)
      ensures players == online
    {
      players := online;
    }
  }
}
