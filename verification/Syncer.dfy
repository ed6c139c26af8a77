/** The syncer as the program keeps it: watcher callbacks that move nodes from pending to the cluster.
    Every callback is proved to do what `ClusterIndex.Handle` does on the same call. */
module Syncer {
  import opened Strconv
  import opened GossipState
  import opened ClusterIndex
  import Cluster = ClusterMap
  import Gossip = ClusterState

  class Syncer {
    var pending: map<string, Node>
    const cluster: Cluster.ClusterMap
    const gossiper: Gossip.ClusterState

    ghost function Abstract(): Index
      reads this, cluster
    {
      Index(cluster.localID, cluster.nodes, pending)
    }

    ghost predicate Valid()
      reads this, cluster
    {
      cluster.Valid() && forall id :: id in pending ==> pending[id].id == id
    }

    constructor (cluster: Cluster.ClusterMap, gossiper: Gossip.ClusterState)
      requires cluster.Valid()
      ensures Valid() && this.cluster == cluster && this.gossiper == gossiper && pending == map[]
    {
      this.cluster := cluster;
      this.gossiper := gossiper;
      pending := map[];
    }

    method Joined(id: string)
      requires Valid()
      modifies this
      ensures Valid() && Abstract() == Handle(old(Abstract()), OnJoin(id))
    {
      if id == cluster.localID {
        return;
      }
      if id in cluster.nodes {
        return;
      }
      if id in pending {
        return;
      }
      pending := pending[id := Node(id, Unset, "", "", map[])];
    }

    method HasLeft(id: string)
      requires Valid()
      modifies this, cluster
      ensures Valid() && Abstract() == Handle(old(Abstract()), OnLeave(id))
    {
      if id == cluster.localID {
        return;
      }
      var updated := cluster.UpdateRemoteStatus(id, Left);
      if updated {
        return;
      }
      pending := pending - {id};
    }

    method IsReachable(id: string)
      requires Valid()
      modifies this, cluster
      ensures Valid() && Abstract() == Handle(old(Abstract()), OnReachable(id))
    {
      Restatus(id, Active);
    }

    method IsUnreachable(id: string)
      requires Valid()
      modifies this, cluster
      ensures Valid() && Abstract() == Handle(old(Abstract()), OnUnreachable(id))
    {
      Restatus(id, Unreachable);
    }

    method Restatus(id: string, status: Status)
      requires Valid()
      modifies this, cluster
      ensures Valid()
      ensures Abstract() == if id == cluster.localID then old(Abstract()) else SetStatus(old(Abstract()), id, status)
    {
      if id == cluster.localID {
        return;
      }
      var updated := cluster.UpdateRemoteStatus(id, status);
      if updated {
        return;
      }
      if id in pending {
        pending := pending[id := pending[id].(status := status)];
      }
    }

    method HasExpired(id: string)
      requires Valid()
      modifies this, cluster
      ensures Valid() && Abstract() == Handle(old(Abstract()), OnExpired(id))
    {
      if id == cluster.localID {
        return;
      }
      var removed := cluster.RemoveNode(id);
      if removed {
        return;
      }
      pending := pending - {id};
    }

    method UpsertKey(id: string, key: string, value: string)
      requires Valid()
      modifies this, cluster
      ensures Valid() && Abstract() == Handle(old(Abstract()), OnUpsertKey(id, key, value))
    {
      if id == cluster.localID {
        return;
      }
      KeysDiffer();
      if key == PROXY_ADDR || key == ADMIN_ADDR {
        if id in cluster.nodes {
          return;
        }
      }
      if ENDPOINT_PREFIX <= key {
        var listeners := Atoi(value);
        if listeners.None? {
          return;
        }
        var updated := cluster.UpdateRemoteEndpoint(id, key[|ENDPOINT_PREFIX|..], listeners.value);
        if updated {
          return;
        }
      }
      if id !in pending {
        return;
      }
      var node := pending[id];
      if key == PROXY_ADDR {
        node := node.(proxyAddr := value);
      } else if key == ADMIN_ADDR {
        node := node.(adminAddr := value);
      } else if ENDPOINT_PREFIX <= key {
        node := node.(endpoints := node.endpoints[key[|ENDPOINT_PREFIX|..] := Atoi(value).value]);
      } else {
        return;
      }
      if node.proxyAddr != "" && node.adminAddr != "" {
        if node.status == Unset {
          node := node.(status := Active);
        }
        pending := pending - {node.id};
        cluster.AddNode(node);
      } else {
        pending := pending[id := node];
      }
    }

    method DeleteKey(id: string, key: string)
      requires Valid()
      modifies this, cluster
      ensures Valid() && Abstract() == Handle(old(Abstract()), OnDeleteKey(id, key))
    {
      if id == cluster.localID {
        return;
      }
      if !(ENDPOINT_PREFIX <= key) {
        return;
      }
      var endpointID := key[|ENDPOINT_PREFIX|..];
      var updated := cluster.RemoveRemoteEndpoint(id, endpointID);
      if updated {
        return;
      }
      if id in pending {
        pending := pending[id := pending[id].(endpoints := pending[id].endpoints - {endpointID})];
      }
    }

    /** Gossips the number of local listeners after it changed. */
    method LocalEndpointUpdated(endpointID: string)
      requires cluster.Valid() && gossiper.Valid()
      modifies gossiper
      ensures gossiper.Valid()
      ensures gossiper.Abstract()
           == Advertise(old(gossiper.Abstract()), endpointID, Listeners(cluster.nodes[cluster.localID], endpointID))
    {
      var key := ENDPOINT_PREFIX + endpointID;
      var listeners := cluster.LocalEndpointListeners(endpointID);
      if listeners > 0 {
        gossiper.UpsertLocal(key, Itoa(listeners));
      } else {
        gossiper.DeleteLocal(key);
      }
    }
  }
}
