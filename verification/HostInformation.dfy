/** MicroMiddleware/NetObjects/HostInformation.h and GroupInformation.{h,cpp}: what a component says about itself, and
    a group's replicated copies of it. Fields no modelled code branches on are folded into `rest`. */
module HostInformation {

  datatype OnlineStatus = NoOnlineStatus | Offline | Online

  datatype Description = NoHostDescription | Publisher | Subscriber | Proxy | Stub | OtherDescription

  /** handle is what InterfaceHandle is built from: host name and port. */
  datatype Host = Host(componentName: string, connectedTo: string, status: OnlineStatus, description: Description,
                       handle: string, rest: string)

  datatype Group = Group(name: string, members: map<string, Host>)
  {
    /** IsMember(componentName) with its default argument: present and ONLINE. */
    predicate IsMember(component: string) {
      component in members && members[component].status == Online
    }

    predicate CanUpdate(h: Host) {
      h.componentName in members
    }

    function UpdateHost(h: Host): Group {
      if CanUpdate(h) then this.(members := members[h.componentName := h]) else this
    }

    function AddHost(h: Host): Group {
      this.(members := members[h.componentName := h])
    }

    function RemoveHost(component: string): Group {
      this.(members := members - {component})
    }
  }

  const NO_GROUP := Group("", map[])
}
